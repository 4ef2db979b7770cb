/** A whole file session: the client and the server as step machines joined by two faithful queues. Their
    steps may interleave in any order. */
module Session {
  import opened Bytes
  import opened Json
  import opened CryptoUtils
  import opened Base64
  import opened Protocol
  import opened Channel
  import opened Transfer
  import opened Handshake
  import opened Contacts
  import opened Server
  import opened Client

  /** The client's request, the server's side, and the server's contact book. */
  datatype Pair = Pair(a: Asker, h: Host, book: Book)

  datatype ClientState =
    | Starting
    | AwaitingHandshake
    | Asking(keys: SessionKeys)
    | AwaitingAnswer(keys: SessionKeys)
    | AwaitingStart(keys: SessionKeys)
    | Receiving(keys: SessionKeys, o: Offer, total: int, left: nat, chunks: map<int, Bytes>)
    | AwaitingDone(o: Offer, total: int, chunks: map<int, Bytes>)
    | Ended(status: Status, saved: Option<SavedFile>)

  datatype ServerState = Listening | Answering(keys: SessionKeys, peer: Record) | HungUp

  /** `out` is what the running handler has still to send, `up` and `down` the frames in flight, `log` all
      the server has put on the wire. */
  datatype World = World(client: ClientState, server: ServerState, out: seq<J>, up: seq<J>, down: seq<J>, log: seq<J>)

  const INITIAL := World(Starting, Listening, [], [], [], [])

  // ---------------------------------------------------------------- the client's turns

  function End(r: Receipt): ClientState { Ended(r.status, r.saved) }

  const BROKEN := Ended(Failed(Raised), None)
  const CUT_OFF := Ended(Failed(Lost), None)

  /** _recv_transfer up to its loop. */
  function Begin(a: Asker, keys: SessionKeys, start: J): ClientState
  {
    match ReadOffer(start)
    case None => BROKEN
    case Some(o) =>
      if !ManifestAccepted(a.p, a.owners(o.owner), o) then Ended(Failed(Refused), None)
      else if !o.totalChunks.JInt? then BROKEN
      else if o.totalChunks.n > 0 then Receiving(keys, o, o.totalChunks.n, o.totalChunks.n, map[])
      else AwaitingDone(o, o.totalChunks.n, map[])
  }

  function Got(a: Asker, s: ClientState, f: J): ClientState
  {
    match s
    case AwaitingHandshake =>
      (match FinishInitiator(a.p, a.Side(), f)
       case None => BROKEN
       case Some(e) => Asking(e.keys))
    case AwaitingAnswer(keys) => if Declined(f).Some? then Ended(Failed(Declined(f).value), None) else AwaitingStart(keys)
    case AwaitingStart(keys) =>
      if BadStart(a.p, a.contactPub, f).Some? then Ended(Failed(BadStart(a.p, a.contactPub, f).value), None)
      else Begin(a, keys, f)
    case Receiving(keys, o, total, left, chunks) =>
      (match AcceptChunk(CheckOf(a.p, keys, o, total), f)
       case Bad(why) => Ended(Failed(why), None)
       case Chunk(i, plain) =>
         if left <= 1 then AwaitingDone(o, total, chunks[i := plain])
         else Receiving(keys, o, total, left - 1, chunks[i := plain]))
    case AwaitingDone(o, total, chunks) => End(Finish(a.p, o, total, chunks, [f]))
    case _ => s
  }

  predicate Sends(s: ClientState) { s.Starting? || s.Asking? }

  predicate ClientCan(w: World)
  {
    !w.client.Ended? && (Sends(w.client) || w.down != [] || (w.server == HungUp && w.out == []))
  }

  function ClientStep(x: Pair, w: World): World
  {
    match w.client
    case Starting =>
      if Fits(x.a.Init()) then w.(client := AwaitingHandshake, up := w.up + [x.a.Init()]) else w.(client := BROKEN)
    case Asking(keys) =>
      if Fits(x.a.Request()) then w.(client := AwaitingAnswer(keys), up := w.up + [x.a.Request()]) else w.(client := BROKEN)
    case _ =>
      if w.down == [] then w.(client := CUT_OFF) else w.(client := Got(x.a, w.client, w.down[0]), down := w.down[1..])
  }

  // ---------------------------------------------------------------- the server's turns

  datatype Start = Start(out: seq<J>, next: ServerState)

  /** The dispatch of a HANDSHAKE_INIT and the handshake. */
  ghost function Opens(x: Pair, init: J): Start
  {
    match RouteTo(x.h.p.lower, x.book, init, true)
    case NoRoute => Start([], HungUp)
    case Unknown(m) => Start(Sent(x.h.Error(m, 0)), HungUp)
    case For(k) =>
      var o := OpenSession(x.h, x.book[k], init);
      Start(o.out, if o.keys.Some? then Answering(o.keys.value, x.book[k]) else HungUp)
  }

  predicate ServerCan(w: World)
  {
    w.out != [] || (w.server != HungUp && (w.up != [] || w.client.Ended?))
  }

  ghost function ServerStep(x: Pair, w: World): World
  {
    if w.out != [] then w.(out := w.out[1..], down := w.down + [w.out[0]], log := w.log + [w.out[0]])
    else if w.up == [] then w.(server := HungUp)
    else
      match w.server
      case Listening => w.(out := Opens(x, w.up[0]).out, server := Opens(x, w.up[0]).next, up := w.up[1..])
      case Answering(keys, peer) => w.(out := Answer(x.h, peer, keys, w.up[0]), server := HungUp, up := w.up[1..])
      case HungUp => w
  }

  // ---------------------------------------------------------------- runs

  /** One move, of the client or of the server. */
  ghost predicate Moves(x: Pair, w: World, client: bool, v: World)
  {
    if client then ClientCan(w) && v == ClientStep(x, w) else ServerCan(w) && v == ServerStep(x, w)
  }

  /** A run under any schedule: true where the client moves, false where the server does. */
  ghost predicate Run(x: Pair, states: seq<World>, schedule: seq<bool>)
  {
    && |states| == |schedule| + 1 && states[0] == INITIAL
    && forall k {:trigger schedule[k]} :: 0 <= k < |schedule| ==> Moves(x, states[k], schedule[k], states[k + 1])
  }

  // ---------------------------------------------------------------- what the client makes of a list of frames

  function Feed(a: Asker, s: ClientState, frames: seq<J>): ClientState
    decreases |frames|
  {
    if s.Ended? then s
    else if frames == [] then CUT_OFF
    else Feed(a, Got(a, s, frames[0]), frames[1..])
  }

  lemma {:induction false} FeedChunks(a: Asker, s: ClientState, frames: seq<J>)
    requires s.Receiving? && s.left > 0
    ensures Feed(a, s, frames)
         == match Collect(CheckOf(a.p, s.keys, s.o, s.total), s.left, frames, s.chunks) {
              case Stopped(why, _) => Ended(Failed(why), None)
              case Collected(chunks, rest) => End(Finish(a.p, s.o, s.total, chunks, rest)) }
    decreases |frames|
  {
    hide AcceptChunk, HasType, JoinChunks;
    if frames != [] {
      var t := Got(a, s, frames[0]);
      if t.Receiving? {
        FeedChunks(a, t, frames[1..]);
      } else if t.AwaitingDone? {
        FeedDone(a, t, frames[1..]);
      }
    }
  }

  lemma FeedDone(a: Asker, s: ClientState, frames: seq<J>)
    requires s.AwaitingDone?
    ensures Feed(a, s, frames) == End(Finish(a.p, s.o, s.total, s.chunks, frames))
  {
    hide JoinChunks, HasType;
  }

  lemma FeedTransfer(a: Asker, keys: SessionKeys, start: J, frames: seq<J>)
    ensures Feed(a, Begin(a, keys, start), frames) == End(ReceiveTransfer(a.p, a.owners, keys, start, frames))
  {
    hide ReadOffer, ManifestAccepted, Got, Finish;
    var s := Begin(a, keys, start);
    if s.Receiving? { FeedChunks(a, s, frames); } else if s.AwaitingDone? { FeedDone(a, s, frames); }
  }

  /** Taking the frames one by one ends as _do_request does on all of them. */
  lemma FeedRequest(a: Asker, keys: SessionKeys, frames: seq<J>)
    ensures Feed(a, AwaitingAnswer(keys), frames) == End(AfterRequest(a, keys, frames))
  {
    hide Declined, BadStart, Begin, ReceiveTransfer;
    if frames != [] && Declined(frames[0]) == None && |frames| > 1 {
      assert frames[1..][1..] == frames[2..];
      assert Feed(a, AwaitingAnswer(keys), frames) == Feed(a, AwaitingStart(keys), frames[1..]);
      FeedTransfer(a, keys, frames[1], frames[2..]);
    }
  }

  // ---------------------------------------------------------------- the outcome, written sequentially

  ghost function AnswerBy(x: Pair, server: ServerState, req: J): seq<J>
  {
    match server
    case Answering(keys, peer) => Answer(x.h, peer, keys, req)
    case _ => []
  }

  /** All the frames the server sends to a client that goes on to ask. */
  ghost function Delivered(x: Pair): seq<J>
  {
    var o := Opens(x, x.a.Init());
    o.out + AnswerBy(x, o.next, x.a.Request())
  }

  lemma InitIsHandshake(a: Asker)
    ensures KindOf(a.Init()) == Handshaking
  {
    hide BuildEnvelope, InitPayload;
    BuiltEnvelopeType(a.p, a.seed, Asc("HANDSHAKE_INIT"), InitPayload(a.p.ephemeralPublic(a.eph), a.nonce), a.initId);
    assert |Asc("HANDSHAKE_INIT")| != |Asc("HELLO")| && |Asc("HANDSHAKE_INIT")| != |Asc("CONTACT_REQUEST")|;
    assert |Asc("HANDSHAKE_INIT")| != |Asc("KEY_ROTATE_NOTICE")| && |Asc("HANDSHAKE_INIT")| != |Asc("LIST_FILES_REQUEST")|;
  }

  /** The server machine sends what the dispatcher sends on the same two frames. */
  lemma DeliveredIsDispatch(x: Pair)
    ensures Delivered(x) == SentAfter(x.book, x.h, x.a.Init(), [x.a.Request()])
  {
    hide InitEnvelope, BuildEnvelope, KindOf, OpenSession, Answer, Lookup;
    InitIsHandshake(x.a);
  }

  ghost function AfterAsking(x: Pair, keys: SessionKeys, server: ServerState): ClientState
  {
    if !Fits(x.a.Request()) then BROKEN else Feed(x.a, AwaitingAnswer(keys), AnswerBy(x, server, x.a.Request()))
  }

  ghost function AfterHandshake(x: Pair, frames: seq<J>, server: ServerState): ClientState
  {
    if frames == [] then CUT_OFF
    else
      match FinishInitiator(x.a.p, x.a.Side(), frames[0])
      case None => BROKEN
      case Some(e) => AfterAsking(x, e.keys, server)
  }

  ghost function Result(x: Pair): ClientState
  {
    if !Fits(x.a.Init()) then BROKEN
    else AfterHandshake(x, Opens(x, x.a.Init()).out, Opens(x, x.a.Init()).next)
  }

  /** What the client will end with if nothing but the two machines moves. */
  ghost function Final(x: Pair, w: World): ClientState
  {
    match w.client
    case Ended(_, _) => w.client
    case Starting => Result(x)
    case AwaitingHandshake => if w.server == Listening then Result(x) else AfterHandshake(x, w.down + w.out, w.server)
    case Asking(keys) => AfterAsking(x, keys, w.server)
    case _ => Feed(x.a, w.client, w.down + w.out + if w.up == [] then [] else AnswerBy(x, w.server, w.up[0]))
  }

  /** Where the two machines and the frames between them can be. */
  ghost predicate Shape(x: Pair, w: World)
  {
    && (w.server == Listening ==> w.out == w.down == [] && (w.up == [] || (w.client == AwaitingHandshake && w.up == [x.a.Init()])))
    && (w.server.Answering? && w.up != [] ==> w.up == [x.a.Request()] && w.out == w.down == [] && w.client.AwaitingAnswer?)
    && match w.client
       case Starting => w.server == Listening && w.up == []
       case AwaitingHandshake =>
         if w.server == Listening then w.up != [] && Fits(x.a.Init())
         else w.up == [] && |w.down + w.out| <= 1 && (w.server.Answering? ==> |w.down + w.out| == 1)
       case Asking(_) => w.server != Listening && w.up == w.down == w.out == []
       case Ended(_, _) => true
       case Receiving(_, _, _, left, _) => w.server == HungUp && left > 0
       case AwaitingAnswer(_) => w.server == HungUp || (w.server.Answering? && w.up != [])
       case _ => w.server == HungUp
  }

  lemma OpensShape(x: Pair, init: J)
    ensures var o := Opens(x, init); |o.out| <= 1 && o.next != Listening && (o.next.Answering? ==> |o.out| == 1)
  {
    hide HasType, VerifyEnvelope, ErrorEnvelope, ReplyEnvelope, FinishResponder, RouteTo, Fits;
    var route := RouteTo(x.h.p.lower, x.book, init, true);
    if route.For? && B64d(x.book[route.fp].rawPub).Some? {
      OneReply(x.h, ResponderFor(x.h, x.book[route.fp], B64d(x.book[route.fp].rawPub).value), init);
    }
  }

  lemma OneReply(h: Host, r: Responder, init: J)
    ensures |ResponderReply(h.p, h.seed, r, init, h.ids(0))| <= 1
    ensures OpenHandshake(h.p, r, init).Some? && Fits(ReplyEnvelope(h.p, h.seed, r, OpenHandshake(h.p, r, init).value, h.ids(0)))
            ==> |ResponderReply(h.p, h.seed, r, init, h.ids(0))| == 1
  {
    hide HasType, VerifyEnvelope, ErrorEnvelope, ReplyEnvelope, Fits, Transcript, BytesField;
  }

  predicate Reads(s: ClientState) { s.AwaitingAnswer? || s.AwaitingStart? || s.Receiving? || s.AwaitingDone? }

  lemma ClientSendKeeps(x: Pair, w: World)
    requires Shape(x, w) && Sends(w.client)
    ensures Shape(x, ClientStep(x, w)) && Final(x, ClientStep(x, w)) == Final(x, w)
  {
    hide Opens, Answer, FinishInitiator, Fits, Feed, InitEnvelope, BuildEnvelope, AfterHandshake;
    var l := AnswerBy(x, w.server, x.a.Request());
    assert w.down + w.out + l == l && (w.up + [x.a.Request()])[|w.up|] == x.a.Request();
  }

  lemma ClientHandshakeKeeps(x: Pair, w: World)
    requires Shape(x, w) && ClientCan(w) && w.client == AwaitingHandshake
    ensures Shape(x, ClientStep(x, w)) && Final(x, ClientStep(x, w)) == Final(x, w)
  {
    hide Opens, Answer, FinishInitiator, Fits, Feed;
    if w.down != [] {
      assert (w.down + w.out)[0] == w.down[0] && |w.down + w.out| == |w.down| + |w.out|;
    }
  }

  lemma GotShape(a: Asker, s: ClientState, f: J)
    requires Reads(s)
    ensures var t := Got(a, s, f); t.Ended? || (Reads(t) && !t.AwaitingAnswer? && (t.Receiving? ==> t.left > 0))
  {
    hide Declined, BadStart, AcceptChunk, Finish, ReadOffer, ManifestAccepted;
  }

  lemma ClientReadKeeps(x: Pair, w: World)
    requires Shape(x, w) && ClientCan(w) && Reads(w.client)
    ensures Shape(x, ClientStep(x, w)) && Final(x, ClientStep(x, w)) == Final(x, w)
  {
    hide Opens, Answer, Got;
    if w.down != [] {
      GotShape(x.a, w.client, w.down[0]);
      var rest := w.out + if w.up == [] then [] else AnswerBy(x, w.server, w.up[0]);
      assert w.down + w.out + (if w.up == [] then [] else AnswerBy(x, w.server, w.up[0])) == w.down + rest;
      assert w.down[1..] + w.out + (if w.up == [] then [] else AnswerBy(x, w.server, w.up[0])) == w.down[1..] + rest;
      FeedOne(x.a, w.client, w.down, rest);
    }
  }

  lemma FeedOne(a: Asker, s: ClientState, down: seq<J>, rest: seq<J>)
    requires !s.Ended? && down != []
    ensures Feed(a, s, down + rest) == Feed(a, Got(a, s, down[0]), down[1..] + rest)
  {
    hide Got;
    assert (down + rest)[0] == down[0] && (down + rest)[1..] == down[1..] + rest;
  }

  lemma ClientKeeps(x: Pair, w: World)
    requires Shape(x, w) && ClientCan(w)
    ensures Shape(x, ClientStep(x, w)) && Final(x, ClientStep(x, w)) == Final(x, w)
  {
    hide Shape, Final, ClientStep;
    if Sends(w.client) { ClientSendKeeps(x, w); }
    else if Reads(w.client) { ClientReadKeeps(x, w); }
    else { ClientHandshakeKeeps(x, w); }
  }

  lemma ServerSendKeeps(x: Pair, w: World)
    requires Shape(x, w) && w.out != []
    ensures Shape(x, ServerStep(x, w)) && Final(x, ServerStep(x, w)) == Final(x, w)
  {
    hide Opens, Answer, FinishInitiator, Fits, Feed;
    assert w.down + w.out == (w.down + [w.out[0]]) + w.out[1..];
  }

  lemma ServerListenKeeps(x: Pair, w: World)
    requires Shape(x, w) && ServerCan(w) && w.server == Listening
    ensures Shape(x, ServerStep(x, w)) && Final(x, ServerStep(x, w)) == Final(x, w)
  {
    hide Opens, Answer, FinishInitiator, Fits, Feed, InitEnvelope, BuildEnvelope, AfterHandshake;
    OpensShape(x, x.a.Init());
    assert [] + Opens(x, x.a.Init()).out == Opens(x, x.a.Init()).out;
  }

  lemma ServerAnswerKeeps(x: Pair, w: World)
    requires Shape(x, w) && ServerCan(w) && w.out == [] && w.server.Answering?
    ensures Shape(x, ServerStep(x, w)) && Final(x, ServerStep(x, w)) == Final(x, w)
  {
    hide Opens, Answer, FinishInitiator, Fits, Feed;
    if w.up != [] {
      var l := Answer(x.h, w.server.peer, w.server.keys, w.up[0]);
      assert [] + [] + l == [] + l + [];
    }
  }

  lemma ServerKeeps(x: Pair, w: World)
    requires Shape(x, w) && ServerCan(w)
    ensures Shape(x, ServerStep(x, w)) && Final(x, ServerStep(x, w)) == Final(x, w)
  {
    if w.out != [] { ServerSendKeeps(x, w); }
    else if w.server == Listening { ServerListenKeeps(x, w); }
    else { ServerAnswerKeeps(x, w); }
  }

  /** No deadlock: until both sides have finished, one of them can move. */
  lemma NoDeadlock(x: Pair, w: World)
    requires Shape(x, w)
    ensures ClientCan(w) || ServerCan(w) || (w.client.Ended? && w.server == HungUp && w.out == [])
  {
  }

  // ---------------------------------------------------------------- termination and the log

  function ClientRank(s: ClientState): nat
  {
    match s
    case Starting => 7
    case AwaitingHandshake => 6
    case Asking(_) => 5
    case AwaitingAnswer(_) => 4
    case AwaitingStart(_) => 3
    case Receiving(_, _, _, _, _) => 2
    case AwaitingDone(_, _, _) => 1
    case Ended(_, _) => 0
  }

  ghost function AnswerLeft(x: Pair, s: ServerState): nat
  {
    if s.Answering? then 1 + 2 * |AnswerBy(x, s, x.a.Request())| else 0
  }

  /** An upper bound on the steps still to come. */
  ghost function Left(x: Pair, w: World): nat
  {
    var o := Opens(x, x.a.Init());
    ClientRank(w.client) + 2 * |w.out| + |w.down|
    + if w.server == Listening then 1 + 2 * |o.out| + AnswerLeft(x, o.next) else AnswerLeft(x, w.server)
  }

  lemma ClientProgress(x: Pair, w: World)
    requires Shape(x, w) && ClientCan(w)
    ensures Left(x, ClientStep(x, w)) < Left(x, w)
  {
    hide Opens, AnswerBy, FinishInitiator, Declined, BadStart, AcceptChunk, Finish, ReadOffer, ManifestAccepted, Fits;
    hide InitEnvelope, BuildEnvelope;
  }

  lemma ServerProgress(x: Pair, w: World)
    requires Shape(x, w) && ServerCan(w)
    ensures Left(x, ServerStep(x, w)) < Left(x, w)
  {
    hide Opens, Answer, Fits, InitEnvelope, BuildEnvelope;
    OpensShape(x, x.a.Init());
  }

  /** What the server has sent is the beginning of what it will send. */
  ghost predicate LogShape(x: Pair, w: World)
  {
    var o := Opens(x, x.a.Init());
    match w.server
    case Listening => w.log + w.out == []
    case Answering(_, _) => w.server == o.next && w.log + w.out == o.out
    case HungUp => w.log + w.out == [] || w.log + w.out == o.out || w.log + w.out == Delivered(x)
  }

  lemma LogKept(x: Pair, w: World)
    requires Shape(x, w) && ServerCan(w) && LogShape(x, w)
    ensures LogShape(x, ServerStep(x, w))
  {
    hide Opens, Answer, Fits, InitEnvelope, BuildEnvelope;
    if w.out != [] {
      hide Shape, Delivered;
      assert (w.log + [w.out[0]]) + w.out[1..] == w.log + w.out;
    } else {
      assert w.log + w.out == w.log;
      hide ClientCan;
      OpensShape(x, x.a.Init());
      if w.server == Listening { assert w.log == []; }
    }
  }

  lemma {:induction false} RunKeeps(x: Pair, states: seq<World>, schedule: seq<bool>, k: nat)
    requires Run(x, states, schedule) && k <= |schedule|
    ensures var w := states[k];
            Shape(x, w) && LogShape(x, w) && Final(x, w) == Result(x) && k + Left(x, w) <= Left(x, INITIAL)
    decreases k
  {
    hide Shape, LogShape, Final, Left, ClientStep, ServerStep, ClientCan, ServerCan, Result;
    if k == 0 {
      InitialShape(x);
    } else {
      RunKeeps(x, states, schedule, k - 1);
      var w := states[k - 1];
      var client := schedule[k - 1];
      assert Moves(x, w, client, states[k]);
      if client {
        ClientKeeps(x, w);
        ClientProgress(x, w);
        ClientLeavesLog(x, w);
      } else {
        ServerKeeps(x, w);
        ServerProgress(x, w);
        LogKept(x, w);
      }
    }
  }

  lemma ClientLeavesLog(x: Pair, w: World)
    requires LogShape(x, w)
    ensures LogShape(x, ClientStep(x, w))
  {
    hide Opens, Answer, Got, Fits, InitEnvelope, BuildEnvelope;
  }

  lemma InitialShape(x: Pair)
    ensures Shape(x, INITIAL) && LogShape(x, INITIAL) && Final(x, INITIAL) == Result(x)
  {
    hide Opens, Result;
  }

  /** Every schedule is finite, never deadlocks, and ends with both sides finished and the client holding
      what _do_request makes of the server's frames taken one after the other. */
  lemma EveryRunEndsAlike(x: Pair, states: seq<World>, schedule: seq<bool>, k: nat)
    requires Run(x, states, schedule) && k <= |schedule|
    ensures k <= Left(x, INITIAL)
    ensures var w := states[k];
            ClientCan(w) || ServerCan(w) || (w.server == HungUp && w.out == [] && w.client == End(Download(x.a, Delivered(x))))
  {
    hide Shape, LogShape, Final, Left, ClientStep, ServerStep, ClientCan, ServerCan, Download, Delivered, Result;
    RunKeeps(x, states, schedule, k);
    var w := states[k];
    NoDeadlock(x, w);
    ResultIsDownload(x);
    if w.client.Ended? { EndedIsFinal(x, w); }
  }

  lemma EndedIsFinal(x: Pair, w: World)
    requires w.client.Ended?
    ensures Final(x, w) == w.client
  {
  }

  lemma ResultIsDownload(x: Pair)
    ensures Result(x) == End(Download(x.a, Delivered(x)))
  {
    hide Opens, Answer, AfterRequest, FinishInitiator, Fits, InitEnvelope, BuildEnvelope;
    var o := Opens(x, x.a.Init());
    OpensShape(x, x.a.Init());
    var l := AnswerBy(x, o.next, x.a.Request());
    if o.out != [] {
      assert (o.out + l)[1..] == l && (o.out + l)[0] == o.out[0];
      if FinishInitiator(x.a.p, x.a.Side(), o.out[0]).Some? {
        FeedRequest(x.a, FinishInitiator(x.a.p, x.a.Side(), o.out[0]).value.keys, l);
      }
    }
  }
}
