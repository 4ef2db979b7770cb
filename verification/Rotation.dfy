/** The contact book under server.py's thread per connection: lookup, mark_revoked and add are separate
    steps, so handlers interleave between them. */
module Rotation {
  import opened Bytes
  import opened Json
  import opened CryptoUtils
  import opened Protocol
  import opened Base64
  import opened Contacts
  import Server
  import Client
  import TrustHistory

  /** A handler between two of its steps. */
  datatype Thread =
    | Rotating(oldFp: Str, newFp: Str, newPub: Str)
    | Renaming(next: Record)
    | Requesting(next: Record, bound: bool)

  /** `born` dates every record by the add that made it; `unchecked` are the records made by a contact
      request, the one entry point that does not compare the fingerprint with the key. */
  datatype State = State(book: Book, threads: map<nat, Thread>, born: map<Str, nat>, now: nat, unchecked: set<Str>)

  datatype Step =
    | BeginRotation(id: nat, query: Str, env: J, notice: Server.Notice)
    | MarkOld(id: nat, host: Str, port: J, name: Str)
    | AddNew(id: nat)
    | BeginRequest(id: nat, env: J, intro: Server.Introduction, host: Str)
    | BeginAddContact(id: nat, reply: J, port: J, intro: Server.Introduction, host: Str)
    | AddRequested(id: nat)
    | Verify(query: Str)
    | Move(query: Str, host: Str, port: J)

  const EMPTY := State(map[], map[], map[], 0, {})

  predicate Bound(p: Prims, fp: Str, rawPub: Str)
  {
    B64d(rawPub).Some? && Fingerprint(p, B64d(rawPub).value) == fp
  }

  predicate Fresh(r: Record) { !r.verified && !r.revoked && r.successor == None }

  /** A handler begins only on a frame that passes its checks. */
  ghost predicate Enabled(p: Prims, s: State, step: Step)
  {
    match step
    case BeginRotation(id, q, env, n) =>
      id !in s.threads && Lookup(p.lower, s.book.Keys, q).Some?
      && HasType(env, Asc("KEY_ROTATE_NOTICE")) && TextField(env, Asc("from")) == Some(q)
      && Server.CheckRotation(p, env, s.book[Lookup(p.lower, s.book.Keys, q).value].rawPub) == Server.Accepts(n)
    case MarkOld(id, _, _, _) => id in s.threads && s.threads[id].Rotating?
    case AddNew(id) => id in s.threads && s.threads[id].Renaming?
    case BeginRequest(id, env, i, _) =>
      id !in s.threads && Lookup(p.lower, s.book.Keys, i.fp) == None && HasType(env, Asc("CONTACT_REQUEST"))
      && Server.CheckIntroduction(p, env) == Server.Accepts(i)
    case BeginAddContact(id, reply, port, i, _) =>
      id !in s.threads && Lookup(p.lower, s.book.Keys, i.fp) == None && Client.CheckAcceptance(p, reply, port) == Some(i)
    case AddRequested(id) => id in s.threads && s.threads[id].Requesting?
    case Verify(_) => true
    case Move(_, _, _) => true
  }

  function NewRecord(fp: Str, rawPub: Str, host: Str, port: J, name: Str): Record
  {
    Record(fp, rawPub, host, port, name, false, false, None)
  }

  /** One add: the record's date is later than every other's. */
  function Adding(s: State, id: nat, r: Record, bound: bool): State
  {
    State(Added(s.book, r), s.threads - {id}, s.born[r.fingerprint := s.now + 1], s.now + 1,
          if bound then s.unchecked - {r.fingerprint} else s.unchecked + {r.fingerprint})
  }

  ghost function Apply(p: Prims, s: State, step: Step): State
    requires Enabled(p, s, step)
  {
    hide Server.CheckRotation, Server.CheckIntroduction, Client.CheckAcceptance;
    match step
    case BeginRotation(id, q, _, n) =>
      s.(threads := s.threads[id := Rotating(Lookup(p.lower, s.book.Keys, q).value, n.newFp, n.newPub)])
    case MarkOld(id, host, port, name) =>
      var t := s.threads[id];
      s.(book := MarkedRevoked(p.lower, s.book, t.oldFp, Some(t.newFp)),
         threads := s.threads[id := Renaming(NewRecord(t.newFp, t.newPub, host, port, name))])
    case AddNew(id) => Adding(s, id, s.threads[id].next, true)
    case BeginRequest(id, _, i, host) =>
      s.(threads := s.threads[id := Requesting(NewRecord(i.fp, i.rawPub, host, i.port, []), false)])
    case BeginAddContact(id, _, _, i, host) =>
      s.(threads := s.threads[id := Requesting(NewRecord(i.fp, i.rawPub, host, i.port, []), true)])
    case AddRequested(id) => Adding(s, id, s.threads[id].next, s.threads[id].bound)
    case Verify(q) => s.(book := MarkedVerified(p.lower, s.book, q))
    case Move(q, host, port) => s.(book := AddressUpdated(p.lower, s.book, q, host, port))
  }

  ghost predicate Legal(p: Prims, s: State, steps: seq<Step>)
    decreases |steps|
  {
    steps == [] || (Enabled(p, s, steps[0]) && Legal(p, Apply(p, s, steps[0]), steps[1..]))
  }

  ghost function After(p: Prims, s: State, steps: seq<Step>): State
    requires Legal(p, s, steps)
    decreases |steps|
  {
    if steps == [] then s else After(p, Apply(p, s, steps[0]), steps[1..])
  }

  // ---------------------------------------------------------------- the ranking every step keeps

  /** A rotation has marked some contact as followed by `fp` and has not yet added `fp`. */
  ghost predicate Pending(s: State, fp: Str)
  {
    exists id :: id in s.threads && s.threads[id].Renaming? && s.threads[id].next.fingerprint == fp
  }

  ghost predicate EdgeRanked(s: State, k: Str)
    requires k in s.book && s.born.Keys == s.book.Keys
  {
    match s.book[k].successor
    case None => true
    case Some(t) => Pending(s, t) || (t in s.book && s.born[k] < s.born[t])
  }

  ghost predicate ThreadSound(p: Prims, t: Thread)
  {
    match t
    case Rotating(_, fp, pub) => Bound(p, fp, pub)
    case Renaming(r) => Fresh(r) && Bound(p, r.fingerprint, r.rawPub)
    case Requesting(r, bound) => Fresh(r) && (bound ==> Bound(p, r.fingerprint, r.rawPub))
  }

  ghost predicate RecordSound(p: Prims, s: State, k: Str)
    requires k in s.book
  {
    && s.book[k].fingerprint == k && (s.book[k].revoked <==> s.book[k].successor.Some?)
    && (k !in s.unchecked ==> Bound(p, k, s.book[k].rawPub))
  }

  ghost predicate Invariant(p: Prims, s: State)
  {
    && s.born.Keys == s.book.Keys && (forall k :: k in s.born ==> s.born[k] <= s.now)
    && (forall id :: id in s.threads ==> ThreadSound(p, s.threads[id]))
    && (forall k :: k in s.book ==> RecordSound(p, s, k) && EdgeRanked(s, k))
  }

  lemma PendingStays(p: Prims, s: State, step: Step, fp: Str)
    requires Enabled(p, s, step) && Pending(s, fp)
    ensures Pending(Apply(p, s, step), fp) || (step.AddNew? && s.threads[step.id].next.fingerprint == fp)
  {
    var id :| id in s.threads && s.threads[id].Renaming? && s.threads[id].next.fingerprint == fp;
    var t := Apply(p, s, step).threads;
    if !(step.AddNew? && step.id == id) { assert id in t && t[id] == s.threads[id]; }
  }

  lemma RecordsKept(p: Prims, s: State, step: Step, k: Str)
    requires Invariant(p, s) && Enabled(p, s, step) && k in Apply(p, s, step).book
    ensures RecordSound(p, Apply(p, s, step), k)
  {
    hide Server.CheckRotation, Server.CheckIntroduction, Client.CheckAcceptance, Lookup, Bound, EdgeRanked;
  }

  lemma EdgesKept(p: Prims, s: State, step: Step, k: Str)
    requires Invariant(p, s) && Enabled(p, s, step) && k in Apply(p, s, step).book
    requires Apply(p, s, step).born.Keys == Apply(p, s, step).book.Keys
    ensures EdgeRanked(Apply(p, s, step), k)
  {
    hide Server.CheckRotation, Server.CheckIntroduction, Client.CheckAcceptance, Lookup, Bound, RecordSound;
    var v := Apply(p, s, step);
    if k in s.book && s.book[k].successor.Some? && Pending(s, s.book[k].successor.value) {
      PendingStays(p, s, step, s.book[k].successor.value);
    }
    if step.MarkOld? { assert v.threads[step.id].Renaming? && Pending(v, s.threads[step.id].newFp); }
  }

  lemma NewThreadsSound(p: Prims, s: State, step: Step)
    requires Enabled(p, s, step) && forall id :: id in s.threads ==> ThreadSound(p, s.threads[id])
    ensures forall id :: id in Apply(p, s, step).threads ==> ThreadSound(p, Apply(p, s, step).threads[id])
  {
    hide Server.CheckRotation, Server.CheckIntroduction, Client.CheckAcceptance, Lookup;
    match step
    case BeginRotation(_, q, env, _) =>
      Server.AcceptedRotation(p, env, s.book[Lookup(p.lower, s.book.Keys, q).value].rawPub);
    case BeginAddContact(_, reply, port, _, _) => Client.AcceptanceBinds(p, reply, port);
    case _ =>
  }

  lemma StepKeeps(p: Prims, s: State, step: Step)
    requires Invariant(p, s) && Enabled(p, s, step)
    ensures Invariant(p, Apply(p, s, step))
  {
    hide Server.CheckRotation, Server.CheckIntroduction, Client.CheckAcceptance, Lookup, Bound, EdgeRanked, RecordSound;
    var v := Apply(p, s, step);
    assert v.born.Keys == v.book.Keys;
    NewThreadsSound(p, s, step);
    forall k | k in v.book
      ensures RecordSound(p, v, k) && EdgeRanked(v, k)
    {
      RecordsKept(p, s, step, k);
      EdgesKept(p, s, step, k);
    }
  }

  lemma {:induction false} RunKeeps(p: Prims, s: State, steps: seq<Step>)
    requires Invariant(p, s) && Legal(p, s, steps)
    ensures Invariant(p, After(p, s, steps))
    decreases |steps|
  {
    hide Invariant, Enabled, Apply;
    if steps != [] {
      StepKeeps(p, s, steps[0]);
      RunKeeps(p, Apply(p, s, steps[0]), steps[1..]);
    }
  }

  // ---------------------------------------------------------------- the successor graph

  /** `path` follows successors from its first fingerprint to its last. */
  predicate Path(b: Book, path: seq<Str>)
  {
    |path| >= 2 && forall i :: 0 <= i < |path| - 1 ==> path[i] in b && b[path[i]].successor == Some(path[i + 1])
  }

  lemma {:induction false} PathGrows(p: Prims, s: State, path: seq<Str>)
    requires Invariant(p, s) && Path(s.book, path)
    requires forall i :: 1 <= i < |path| ==> !Pending(s, path[i])
    ensures path[|path| - 1] in s.book && s.born[path[0]] < s.born[path[|path| - 1]]
  {
    assert EdgeRanked(s, path[0]) && !Pending(s, path[1]);
    if |path| > 2 {
      assert Path(s.book, path[1..]);
      PathGrows(p, s, path[1..]);
    }
  }

  /** In every reachable state a cycle of successors passes through a fingerprint whose add is pending. */
  lemma CyclesWaitForAnAdd(p: Prims, steps: seq<Step>, path: seq<Str>)
    requires Legal(p, EMPTY, steps)
    requires Path(After(p, EMPTY, steps).book, path) && path[0] == path[|path| - 1]
    ensures exists i :: 1 <= i < |path| && Pending(After(p, EMPTY, steps), path[i])
  {
    hide Invariant, Enabled, Apply;
    var s := After(p, EMPTY, steps);
    EmptySound(p);
    RunKeeps(p, EMPTY, steps);
    if forall i :: 1 <= i < |path| ==> !Pending(s, path[i]) { PathGrows(p, s, path); }
  }

  lemma EmptySound(p: Prims)
    ensures Invariant(p, EMPTY)
  {
  }

  ghost predicate NoRotationHalfDone(s: State) { forall id :: id in s.threads ==> !s.threads[id].Renaming? }

  function Hops(b: Book, k: Str, n: nat): Str
    decreases n
  {
    if n == 0 || k !in b || b[k].successor == None then k else Hops(b, b[k].successor.value, n - 1)
  }

  /** The contacts whose records are later than that of `k`. */
  ghost function Later(s: State, k: Str): set<Str>
    requires s.born.Keys == s.book.Keys && k in s.book
  {
    set x | x in s.book && s.born[k] < s.born[x]
  }

  lemma {:induction false} ReachesUnrevoked(p: Prims, s: State, k: Str) returns (n: nat)
    requires Invariant(p, s) && NoRotationHalfDone(s) && k in s.book
    ensures n <= |Later(s, k)| && Hops(s.book, k, n) in s.book && !s.book[Hops(s.book, k, n)].revoked
    decreases |Later(s, k)|
  {
    n := 0;
    if s.book[k].revoked {
      assert RecordSound(p, s, k) && EdgeRanked(s, k);
      var t := s.book[k].successor.value;
      assert !Pending(s, t);
      assert Later(s, t) < Later(s, k) by { assert t in Later(s, k) && t !in Later(s, t); }
      SmallerSet(Later(s, t), Later(s, k));
      n := ReachesUnrevoked(p, s, t);
      n := n + 1;
    }
  }

  lemma SmallerSet<T>(a: set<T>, b: set<T>)
    requires a < b
    ensures |a| < |b|
  {
    assert b == a + (b - a) && b - a != {};
  }

  /** With no rotation half done: revoked means having a successor, every successor is a contact,
      and from any contact fewer hops than there are contacts lead to one that is not revoked. */
  lemma QuiescentBook(p: Prims, steps: seq<Step>, k: Str) returns (n: nat)
    requires Legal(p, EMPTY, steps) && NoRotationHalfDone(After(p, EMPTY, steps)) && k in After(p, EMPTY, steps).book
    ensures var b := After(p, EMPTY, steps).book;
            && (b[k].revoked <==> b[k].successor.Some?)
            && (b[k].successor.Some? ==> b[k].successor.value in b)
            && n < |b| && Hops(b, k, n) in b && !b[Hops(b, k, n)].revoked
  {
    hide Enabled, Apply;
    var s := After(p, EMPTY, steps);
    EmptySound(p);
    RunKeeps(p, EMPTY, steps);
    assert RecordSound(p, s, k) && EdgeRanked(s, k);
    n := ReachesUnrevoked(p, s, k);
    assert Later(s, k) < s.book.Keys by { assert k !in Later(s, k); }
    SmallerSet(Later(s, k), s.book.Keys);
  }

  /** With no rotation half done the successor graph has no cycle. */
  lemma QuiescentAcyclic(p: Prims, steps: seq<Step>, path: seq<Str>)
    requires Legal(p, EMPTY, steps) && NoRotationHalfDone(After(p, EMPTY, steps))
    requires Path(After(p, EMPTY, steps).book, path)
    ensures path[0] != path[|path| - 1]
  {
    hide Invariant, Enabled, Apply;
    if path[0] == path[|path| - 1] { CyclesWaitForAnAdd(p, steps, path); }
  }

  /** A record whose fingerprint is not that of its key was made by a contact request. */
  lemma OnlyRequestsAreUnchecked(p: Prims, steps: seq<Step>, k: Str)
    requires Legal(p, EMPTY, steps) && k in After(p, EMPTY, steps).book
    requires !Bound(p, k, After(p, EMPTY, steps).book[k].rawPub)
    ensures k in After(p, EMPTY, steps).unchecked
  {
    hide Enabled, Apply;
    EmptySound(p);
    RunKeeps(p, EMPTY, steps);
    assert RecordSound(p, After(p, EMPTY, steps), k);
  }

  // ---------------------------------------------------------------- how long a revocation stands

  ghost predicate AddsTo(s: State, step: Step, k: Str)
  {
    (step.AddNew? || step.AddRequested?) && step.id in s.threads && !s.threads[step.id].Rotating?
    && s.threads[step.id].next.fingerprint == k
  }

  /** A revoked contact stays revoked through a step exactly when the step does not add its fingerprint
      again; a record just added is unverified, not revoked and has no successor. */
  lemma OnlyAddsReset(p: Prims, s: State, step: Step, k: Str)
    requires Invariant(p, s) && Enabled(p, s, step) && k in s.book
    ensures k in Apply(p, s, step).book
    ensures s.book[k].revoked ==> (Apply(p, s, step).book[k].revoked <==> !AddsTo(s, step, k))
    ensures AddsTo(s, step, k) ==> Fresh(Apply(p, s, step).book[k])
  {
    hide Server.CheckRotation, Server.CheckIntroduction, Client.CheckAcceptance, Lookup, Bound, EdgeRanked, RecordSound;
  }

  ghost predicate RequestPending(s: State, k: Str)
  {
    exists id :: id in s.threads && s.threads[id].Requesting? && s.threads[id].next.fingerprint == k
  }

  /** Some rotation in the run adds `k` as its new fingerprint. */
  ghost predicate Renames(p: Prims, s: State, steps: seq<Step>, k: Str)
    requires Legal(p, s, steps)
    decreases |steps|
  {
    steps != [] && ((steps[0].AddNew? && AddsTo(s, steps[0], k)) || Renames(p, Apply(p, s, steps[0]), steps[1..], k))
  }

  lemma NoNewRequest(p: Prims, s: State, step: Step, k: Str)
    requires Enabled(p, s, step) && p.lower(k) in s.book && !RequestPending(s, k)
    ensures p.lower(k) in Apply(p, s, step).book && !RequestPending(Apply(p, s, step), k)
  {
    hide Server.CheckRotation, Server.CheckIntroduction, Client.CheckAcceptance, Bound;
    var v := Apply(p, s, step);
    forall id | id in v.threads && v.threads[id].Requesting?
      ensures v.threads[id].next.fingerprint != k
    {
      assert id !in s.threads || s.threads[id] != v.threads[id] ==> step.id == id && v.threads[id].next.fingerprint == step.intro.fp;
    }
  }

  /** A revoked contact whose fingerprint, lowered, is a stored one stays revoked through every run in which no
      rotation names it as the new one, unless a contact request for it is already under way. */
  lemma {:induction false} RevocationStands(p: Prims, s: State, steps: seq<Step>, k: Str)
    requires Invariant(p, s) && Legal(p, s, steps) && p.lower(k) in s.book
    requires k in s.book && s.book[k].revoked && !RequestPending(s, k) && !Renames(p, s, steps, k)
    ensures k in After(p, s, steps).book && After(p, s, steps).book[k].revoked
    decreases |steps|
  {
    hide Invariant, Enabled, Apply, Lookup;
    if steps != [] {
      assert !AddsTo(s, steps[0], k) by { StepShape(p, s, steps[0]); }
      OnlyAddsReset(p, s, steps[0], k);
      NoNewRequest(p, s, steps[0], k);
      StepKeeps(p, s, steps[0]);
      RevocationStands(p, Apply(p, s, steps[0]), steps[1..], k);
    }
  }

  lemma StepShape(p: Prims, s: State, step: Step)
    requires Enabled(p, s, step)
    ensures step.AddRequested? ==> step.id in s.threads && s.threads[step.id].Requesting?
  {
  }

  lemma Cons(p: Prims, s: State, step: Step, rest: seq<Step>)
    requires Enabled(p, s, step) && Legal(p, Apply(p, s, step), rest)
    ensures Legal(p, s, [step] + rest)
    ensures After(p, s, [step] + rest) == After(p, Apply(p, s, step), rest)
    ensures forall k :: Renames(p, s, [step] + rest, k)
                        <==> (step.AddNew? && AddsTo(s, step, k)) || Renames(p, Apply(p, s, step), rest, k)
  {
    assert ([step] + rest)[1..] == rest;
  }

  ghost predicate Undoes(p: Prims, s: State, steps: seq<Step>, k: Str)
  {
    Legal(p, s, steps) && !Renames(p, s, steps, k) && k in After(p, s, steps).book && !After(p, s, steps).book[k].revoked
  }

  lemma FinishRequest(p: Prims, s: State, id: nat, k: Str)
    requires Invariant(p, s) && k in s.book && s.book[k].revoked
    requires id in s.threads && s.threads[id].Requesting? && s.threads[id].next.fingerprint == k
    ensures Undoes(p, s, [AddRequested(id)] + [], k)
  {
    hide Invariant;
    OnlyAddsReset(p, s, AddRequested(id), k);
    Cons(p, s, AddRequested(id), []);
  }

  lemma ConsUndoes(p: Prims, s: State, step: Step, rest: seq<Step>, k: Str)
    requires Enabled(p, s, step) && !step.AddNew? && Undoes(p, Apply(p, s, step), rest, k)
    ensures Undoes(p, s, [step] + rest, k)
  {
    hide Enabled, Apply;
    Cons(p, s, step, rest);
  }

  /** The handler of a contact request under fingerprint `fp`, sent by whoever holds `seed`. */
  function Ask(p: Prims, seed: Bytes, id: nat, fp: Str): Step
  {
    BeginRequest(id, Server.IntroductionAs(p, seed, fp, [], 0),
                 Server.Introduction(fp, B64e(p.publicKey(seed)), JInt(0)), [])
  }

  /** The handler of a rotation from the key of `seed` to that of `next`. */
  function Turn(p: Prims, seed: Bytes, next: Bytes, id: nat, query: Str): Step
  {
    BeginRotation(id, query, Server.NoticeAs(p, seed, next, query, []),
                  Server.Notice(Fingerprint(p, p.publicKey(next)), B64e(p.publicKey(next))))
  }

  function Asker(p: Prims, seed: Bytes, fp: Str): Record { NewRecord(fp, B64e(p.publicKey(seed)), [], JInt(0), []) }

  lemma AskEnabled(p: Prims, s: State, seed: Bytes, id: nat, fp: Str)
    requires SignaturesVerify(p) && id !in s.threads && Lookup(p.lower, s.book.Keys, fp) == None
    ensures Enabled(p, s, Ask(p, seed, id, fp))
    ensures Apply(p, s, Ask(p, seed, id, fp)) == s.(threads := s.threads[id := Requesting(Asker(p, seed, fp), false)])
  {
    hide Lookup, Server.CheckIntroduction, Server.IntroductionAs, B64e, HasType;
    Server.AnyFingerprintAccepted(p, seed, fp, [], 0);
  }

  lemma TurnEnabled(p: Prims, s: State, seed: Bytes, next: Bytes, id: nat, query: Str, k: Str)
    requires SignaturesVerify(p) && id !in s.threads && Lookup(p.lower, s.book.Keys, query) == Some(k)
    requires s.book[k].rawPub == B64e(p.publicKey(seed))
    ensures Enabled(p, s, Turn(p, seed, next, id, query))
    ensures Apply(p, s, Turn(p, seed, next, id, query))
         == s.(threads := s.threads[id := Rotating(k, Fingerprint(p, p.publicKey(next)), B64e(p.publicKey(next)))])
  {
    hide Lookup, Server.CheckRotation, Server.NoticeAs, B64e, Fingerprint, HasType;
    Server.AnyNoticeAccepted(p, seed, next, query, []);
  }

  lemma {:induction false} UnusedId(ids: set<nat>) returns (id: nat)
    ensures forall j :: j in ids ==> j < id
  {
    id := 0;
    if ids != {} {
      var j :| j in ids;
      var others := ids - {j};
      id := UnusedId(others);
      id := if id <= j then j + 1 else id;
      assert forall i :: i in ids ==> i == j || i in others;
    }
  }

  lemma {:induction false} LongestKey(keys: set<Str>) returns (n: nat)
    ensures forall k :: k in keys ==> |k| <= n
  {
    n := 0;
    if keys != {} {
      var k :| k in keys;
      var others := keys - {k};
      n := LongestKey(others);
      n := if n < |k| then |k| else n;
      assert forall j :: j in keys ==> j == k || j in others;
    }
  }

  /** A contact that no lookup finds can be requested anew, which undoes its revocation. */
  lemma RequestUndoes(p: Prims, s: State, k: Str, seed: Bytes) returns (steps: seq<Step>)
    requires SignaturesVerify(p) && Invariant(p, s) && k in s.book && s.book[k].revoked
    requires Lookup(p.lower, s.book.Keys, k) == None
    ensures Undoes(p, s, steps, k)
  {
    hide Enabled, Apply, Undoes, Invariant, Ask, Lookup;
    var id := UnusedId(s.threads.Keys);
    assert id !in s.threads.Keys;
    var ask := Ask(p, seed, id, k);
    AskEnabled(p, s, seed, id, k);
    StepKeeps(p, s, ask);
    FinishRequest(p, Apply(p, s, ask), id, k);
    assert ask.BeginRequest? by { AskIsRequest(p, seed, id, k); }
    ConsUndoes(p, s, ask, [AddRequested(id)] + [], k);
    steps := [ask] + ([AddRequested(id)] + []);
  }

  lemma AskIsRequest(p: Prims, seed: Bytes, id: nat, fp: Str)
    ensures Ask(p, seed, id, fp).BeginRequest?
  {
  }

  /** A new contact under a longer fingerprint that shares the lowered prefix of `k` makes it ambiguous. */
  lemma Crowd(p: Prims, s: State, k: Str) returns (id: nat, fp: Str)
    requires LikeStrLower(p.lower) && p.lower(k) !in s.book && Lookup(p.lower, s.book.Keys, k).Some?
    ensures id !in s.threads && fp !in s.book && Lookup(p.lower, s.book.Keys, fp) == None && p.lower(k) != fp
    ensures Lookup(p.lower, s.book.Keys + {fp}, k) == None
  {
    hide Lookup, LikeStrLower, StartingWith;
    var low, keys := p.lower, s.book.Keys;
    id := UnusedId(s.threads.Keys);
    assert id !in s.threads.Keys;
    var n := LongestKey(keys);
    fp := low(k) + seq(n + 1, i => 48);
    NoShorter(low, fp);
    LongFindsNothing(low, keys, fp, n);
    TwoFindNothing(low, keys + {fp}, k, Lookup(low, keys, k).value, fp);
  }

  lemma NoShorter(low: Str -> Str, s: Str)
    requires LikeStrLower(low)
    ensures |low(s)| >= |s|
  {
  }

  lemma LongFindsNothing(low: Str -> Str, keys: set<Str>, query: Str, n: nat)
    requires (forall k :: k in keys ==> |k| <= n) && |low(query)| > n
    ensures Lookup(low, keys, query) == None
  {
  }

  lemma TwoFindNothing(low: Str -> Str, keys: set<Str>, query: Str, j: Str, k: Str)
    requires low(query) !in keys && j in keys && k in keys && j != k && low(query) <= j && low(query) <= k
    ensures Lookup(low, keys, query) == None
  {
    assert j in StartingWith(keys, low(query)) && k in StartingWith(keys, low(query));
  }

  lemma CrowdedUndoes(p: Prims, s: State, k: Str, seed: Bytes) returns (steps: seq<Step>)
    requires SignaturesVerify(p) && Invariant(p, s) && k in s.book && s.book[k].revoked
    requires LikeStrLower(p.lower) && p.lower(k) !in s.book && Lookup(p.lower, s.book.Keys, k).Some?
    ensures Undoes(p, s, steps, k)
  {
    hide Lookup, Undoes, Invariant, LikeStrLower, Ask, SignaturesVerify, Server.CheckIntroduction, Server.CheckRotation;
    hide Client.CheckAcceptance, B64e;
    var id, fp := Crowd(p, s, k);
    var ask, add := Ask(p, seed, id, fp), AddRequested(id);
    AskEnabled(p, s, seed, id, fp);
    AskIsRequest(p, seed, id, fp);
    StepKeeps(p, s, ask);
    var s1 := Apply(p, s, ask);
    StepKeeps(p, s1, add);
    var s2 := Apply(p, s1, add);
    assert s2.book.Keys == s.book.Keys + {fp};
    steps := RequestUndoes(p, s2, k, seed);
    ConsUndoes(p, s1, add, steps, k);
    steps := [add] + steps;
    ConsUndoes(p, s, ask, steps, k);
    steps := [ask] + steps;
  }

  /** Some run undoes a revocation without a rotation to that fingerprint exactly when a contact request that saw it
      absent has yet to add it, or when its lowered form is not stored, so that a new request may see it absent. */
  lemma RevocationCanBeUndone(p: Prims, s: State, k: Str)
    requires LikeStrLower(p.lower) && SignaturesVerify(p) && Invariant(p, s) && k in s.book && s.book[k].revoked
    ensures (exists steps :: Undoes(p, s, steps, k)) <==> RequestPending(s, k) || p.lower(k) !in s.book
  {
    hide Invariant, Lookup, LikeStrLower;
    if RequestPending(s, k) {
      var id :| id in s.threads && s.threads[id].Requesting? && s.threads[id].next.fingerprint == k;
      FinishRequest(p, s, id, k);
    } else if p.lower(k) in s.book {
      forall steps | Legal(p, s, steps) && !Renames(p, s, steps, k)
        ensures !Undoes(p, s, steps, k)
      {
        RevocationStands(p, s, steps, k);
      }
    } else {
      var steps;
      if Lookup(p.lower, s.book.Keys, k) == None {
        steps := RequestUndoes(p, s, k, []);
      } else {
        steps := CrowdedUndoes(p, s, k, []);
      }
    }
  }

  /** The first kind of state is reachable: two contact requests for one new fingerprint race, the first to finish
      is rotated away, and the second is still to add. */
  lemma StaleRequestReachable(p: Prims, k: Str, seed: Bytes, next: Bytes) returns (steps: seq<Step>)
    requires LikeStrLower(p.lower) && SignaturesVerify(p) && p.lower(k) == k && Fingerprint(p, p.publicKey(next)) != k
    ensures Legal(p, EMPTY, steps)
    ensures var s := After(p, EMPTY, steps); k in s.book && s.book[k].revoked && RequestPending(s, k)
  {
    hide Lookup, B64e, LikeStrLower, SignaturesVerify, Fingerprint, Server.CheckIntroduction, Server.CheckRotation;
    hide Client.CheckAcceptance, Server.NoticeAs, Server.IntroductionAs;
    var r, newFp := Asker(p, seed, k), Fingerprint(p, p.publicKey(next));
    var a, b := Ask(p, seed, 0, k), Ask(p, seed, 1, k);
    var c, d, e, f := AddRequested(1), Turn(p, seed, next, 2, k), MarkOld(2, [], JNull, []), AddNew(2);
    assert Lookup(p.lower, {}, k) == None;
    AskEnabled(p, EMPTY, seed, 0, k);
    var s1 := Apply(p, EMPTY, a);
    AskEnabled(p, s1, seed, 1, k);
    var s2 := Apply(p, s1, b);
    var s3 := Apply(p, s2, c);
    assert s3.book == map[k := r] && s3.book.Keys == {k};
    OwnKeyResolves(p.lower, {k}, k);
    TurnEnabled(p, s3, seed, next, 2, k, k);
    var s4 := Apply(p, s3, d);
    var s5 := Apply(p, s4, e);
    assert s5.book == map[k := r.(revoked := true, successor := Some(newFp))];
    var s6 := Apply(p, s5, f);
    assert s6.threads[0] == Requesting(r, false);
    Cons(p, s5, f, []);
    steps := [f] + [];
    Cons(p, s4, e, steps);
    steps := [e] + steps;
    Cons(p, s3, d, steps);
    steps := [d] + steps;
    Cons(p, s2, c, steps);
    steps := [c] + steps;
    Cons(p, s1, b, steps);
    steps := [b] + steps;
    Cons(p, EMPTY, a, steps);
    steps := [a] + steps;
  }

  lemma OneFound(low: Str -> Str, keys: set<Str>, query: Str, k: Str)
    requires k in keys && low(query) <= k && low(query) !in keys && forall j :: j in keys && low(query) <= j ==> j == k
    ensures Lookup(low, keys, query) == Some(k)
  {
    assert forall j :: j in StartingWith(keys, low(query)) <==> j == k;
    assert StartingWith(keys, low(query)) == {k};
    LookupIs(low, keys, query, k);
  }

  lemma ShadowTexts(low: Str -> Str)
    requires LikeStrLower(low)
    ensures var a: Str, b: Str := Asc("AB"), Asc("abC");
            && a == [65, 66] && b == [97, 98, 67] && low(a) == [97, 98] && low(b) == [97, 98, 99] && low([]) == []
  {
    hide LikeStrLower;
    var a: Str, b: Str, none: Str := Asc("AB"), Asc("abC"), [];
    LowersAscii(low, a);
    LowersAscii(low, b);
    LowersAscii(low, none);
  }

  lemma ShadowLookups(low: Str -> Str)
    requires LikeStrLower(low)
    ensures Lookup(low, {}, Asc("AB")) == None && Lookup(low, {Asc("AB")}, []) == Some(Asc("AB"))
    ensures Lookup(low, {Asc("AB")}, Asc("abC")) == None
    ensures Lookup(low, {Asc("AB"), Asc("abC")}, Asc("AB")) == Some(Asc("abC"))
    ensures low(Asc("abC")) !in {Asc("AB"), Asc("abC")}
  {
    hide LikeStrLower, Lookup, Asc;
    ShadowTexts(low);
    var a: Str, b: Str := [65, 66], [97, 98, 67];
    OneFound(low, {a}, [], a);
    assert low(a)[0] != a[0] && low(b)[0] != a[0] && low(a) <= b;
    OneFound(low, {a, b}, a, b);
  }

  /** The second kind is reachable: a rotation of a contact stored as "AB" revokes the one stored as "abC", whose
      lowered form is not stored. */
  lemma ShadowedRevocationReachable(p: Prims, seed: Bytes, next: Bytes) returns (steps: seq<Step>)
    requires LikeStrLower(p.lower) && SignaturesVerify(p)
    ensures Legal(p, EMPTY, steps)
    ensures var s, k := After(p, EMPTY, steps), Asc("abC");
            k in s.book && s.book[k].revoked && !RequestPending(s, k) && p.lower(k) !in s.book
  {
    hide Lookup, B64e, LikeStrLower, SignaturesVerify, Fingerprint, Server.CheckIntroduction, Server.CheckRotation;
    hide Client.CheckAcceptance, Server.NoticeAs, Server.IntroductionAs;
    ShadowLookups(p.lower);
    var ab: Str, abc: Str := Asc("AB"), Asc("abC");
    var r, t := Asker(p, seed, ab), Asker(p, seed, abc);
    var newFp, newPub := Fingerprint(p, p.publicKey(next)), B64e(p.publicKey(next));
    var a, b := Ask(p, seed, 0, ab), AddRequested(0);
    var c, d := Turn(p, seed, next, 1, []), Ask(p, seed, 0, abc);
    var e, f := AddRequested(0), MarkOld(1, [], JNull, []);
    AskEnabled(p, EMPTY, seed, 0, ab);
    var s1 := Apply(p, EMPTY, a);
    var s2 := Apply(p, s1, b);
    assert s2.book == map[ab := r] && s2.book.Keys == {ab} && s2.threads == map[];
    TurnEnabled(p, s2, seed, next, 1, [], ab);
    var s3 := Apply(p, s2, c);
    AskEnabled(p, s3, seed, 0, abc);
    var s4 := Apply(p, s3, d);
    var s5 := Apply(p, s4, e);
    assert s5.book == map[ab := r, abc := t] && s5.book.Keys == {ab, abc};
    assert s5.threads == map[1 := Rotating(ab, newFp, newPub)];
    var s6 := Apply(p, s5, f);
    assert s6.book[abc] == t.(revoked := true, successor := Some(newFp)) && s6.book.Keys == {ab, abc};
    Cons(p, s5, f, []);
    steps := [f] + [];
    Cons(p, s4, e, steps);
    steps := [e] + steps;
    Cons(p, s3, d, steps);
    steps := [d] + steps;
    Cons(p, s2, c, steps);
    steps := [c] + steps;
    Cons(p, s1, b, steps);
    steps := [b] + steps;
    Cons(p, EMPTY, a, steps);
    steps := [a] + steps;
  }

  // ---------------------------------------------------------------- the handlers run alone

  /** Run without interference, the rotation steps do what the handler does with the same frame. */
  lemma RotationStepsAreHandler(p: Prims, s: State, id: nat, query: Str, k: Str, env: J, n: Server.Notice)
      returns (steps: seq<Step>)
    requires id !in s.threads && Lookup(p.lower, s.book.Keys, query) == Some(k)
    requires HasType(env, Asc("KEY_ROTATE_NOTICE")) && TextField(env, Asc("from")) == Some(query)
    requires Server.CheckRotation(p, env, s.book[k].rawPub) == Server.Accepts(n)
    ensures Legal(p, s, steps) && After(p, s, steps).book == Server.Rotated(p.lower, s.book, k, n)
    ensures After(p, s, steps).threads == s.threads
  {
    hide Lookup, Server.CheckRotation, Server.CheckIntroduction, Client.CheckAcceptance;
    var r := s.book[k];
    var a, b, c := BeginRotation(id, query, env, n), MarkOld(id, r.host, r.port, r.name), AddNew(id);
    var s1 := Apply(p, s, a);
    var s2 := Apply(p, s1, b);
    assert s2.threads[id] == Renaming(NewRecord(n.newFp, n.newPub, r.host, r.port, r.name));
    steps := [c] + [];
    Cons(p, s2, c, []);
    Cons(p, s1, b, steps);
    steps := [b] + steps;
    Cons(p, s, a, steps);
    steps := [a] + steps;
    assert s2.threads - {id} == s.threads;
  }

  lemma RequestStepsAreHandler(p: Prims, s: State, id: nat, env: J, i: Server.Introduction, host: Str)
      returns (steps: seq<Step>)
    requires id !in s.threads && HasType(env, Asc("CONTACT_REQUEST")) && Server.CheckIntroduction(p, env) == Server.Accepts(i)
    ensures Legal(p, s, steps) && After(p, s, steps).book == Server.Introduced(p.lower, s.book, i, host)
    ensures After(p, s, steps).threads == s.threads
  {
    hide Lookup, Server.CheckRotation, Server.CheckIntroduction, Client.CheckAcceptance;
    if Lookup(p.lower, s.book.Keys, i.fp) == None {
      var a, b := BeginRequest(id, env, i, host), AddRequested(id);
      var s1 := Apply(p, s, a);
      Cons(p, s1, b, []);
      Cons(p, s, a, [b] + []);
      steps := [a] + ([b] + []);
      assert s1.threads - {id} == s.threads;
    } else {
      Cons(p, s, Move(i.fp, host, i.port), []);
      steps := [Move(i.fp, host, i.port)] + [];
    }
  }

  // ---------------------------------------------------------------- the history behind the marks

  /** What a step does to the store. */
  function StoreOp(s: State, step: Step): seq<TrustHistory.Op>
  {
    match step
    case MarkOld(id, _, _, _) =>
      if id in s.threads && s.threads[id].Rotating?
      then [TrustHistory.Revoke(s.threads[id].oldFp, Some(s.threads[id].newFp))] else []
    case AddNew(id) => if id in s.threads && !s.threads[id].Rotating? then [TrustHistory.Add(s.threads[id].next)] else []
    case AddRequested(id) => if id in s.threads && !s.threads[id].Rotating? then [TrustHistory.Add(s.threads[id].next)] else []
    case Verify(q) => [TrustHistory.Verify(q)]
    case Move(q, host, port) => [TrustHistory.Move(q, host, port)]
    case _ => []
  }

  ghost function StoreOps(p: Prims, s: State, steps: seq<Step>): seq<TrustHistory.Op>
    requires Legal(p, s, steps)
    decreases |steps|
  {
    if steps == [] then [] else StoreOp(s, steps[0]) + StoreOps(p, Apply(p, s, steps[0]), steps[1..])
  }

  lemma OneStoreOp(p: Prims, s: State, step: Step, pre: seq<TrustHistory.Op>)
    requires Invariant(p, s) && Enabled(p, s, step)
    requires TrustHistory.Run(p.lower, pre) == s.book && TrustHistory.FreshAdds(pre)
    ensures TrustHistory.Run(p.lower, pre + StoreOp(s, step)) == Apply(p, s, step).book
    ensures TrustHistory.FreshAdds(pre + StoreOp(s, step))
  {
    hide TrustHistory.Run, TrustHistory.FreshAdds, Apply, Invariant, Enabled, StoreOp;
    StoreOpIs(p, s, step);
    var op := StoreOp(s, step);
    if op == [] {
      assert pre + op == pre;
    } else {
      assert op == [op[0]];
      LongerHistory(p.lower, pre, op[0]);
    }
  }

  /** A step that does anything to the book does one store operation, and what it adds is fresh. */
  lemma StoreOpIs(p: Prims, s: State, step: Step)
    requires Invariant(p, s) && Enabled(p, s, step)
    ensures |StoreOp(s, step)| <= 1
    ensures StoreOp(s, step) == [] ==> Apply(p, s, step).book == s.book
    ensures StoreOp(s, step) != [] ==> var op := StoreOp(s, step)[0];
                                       Apply(p, s, step).book == TrustHistory.Do(p.lower, s.book, op) && (op.Add? ==> Fresh(op.r))
  {
    hide Server.CheckRotation, Server.CheckIntroduction, Client.CheckAcceptance, Lookup, Bound, EdgeRanked, RecordSound;
  }

  lemma LongerHistory(low: Str -> Str, pre: seq<TrustHistory.Op>, op: TrustHistory.Op)
    requires TrustHistory.FreshAdds(pre) && (op.Add? ==> Fresh(op.r))
    ensures TrustHistory.FreshAdds(pre + [op])
    ensures TrustHistory.Run(low, pre + [op]) == TrustHistory.Do(low, TrustHistory.Run(low, pre), op)
  {
    hide TrustHistory.Do;
    assert (pre + [op])[..|pre|] == pre;
  }

  lemma {:induction false} HistoryGrows(p: Prims, s: State, steps: seq<Step>, pre: seq<TrustHistory.Op>)
    requires Invariant(p, s) && Legal(p, s, steps)
    requires TrustHistory.Run(p.lower, pre) == s.book && TrustHistory.FreshAdds(pre)
    ensures TrustHistory.Run(p.lower, pre + StoreOps(p, s, steps)) == After(p, s, steps).book
    ensures TrustHistory.FreshAdds(pre + StoreOps(p, s, steps))
    decreases |steps|
  {
    hide Invariant, Enabled, Apply, StoreOp, TrustHistory.Run, TrustHistory.FreshAdds;
    if steps == [] {
      assert pre + StoreOps(p, s, steps) == pre;
    } else {
      OneStoreOp(p, s, steps[0], pre);
      StepKeeps(p, s, steps[0]);
      var next := pre + StoreOp(s, steps[0]);
      HistoryGrows(p, Apply(p, s, steps[0]), steps[1..], next);
      Assoc(pre, StoreOp(s, steps[0]), StoreOps(p, Apply(p, s, steps[0]), steps[1..]));
    }
  }

  /** In every run of interleaved handlers the book is the history of its store operations, all of whose adds are
      fresh: a contact shows verified, or revoked, exactly when some mark resolved to it after its latest add. */
  lemma MarksInEveryRun(p: Prims, steps: seq<Step>, k: Str)
    requires Legal(p, EMPTY, steps) && k in After(p, EMPTY, steps).book
    ensures var ops, r := StoreOps(p, EMPTY, steps), After(p, EMPTY, steps).book[k];
            && TrustHistory.Run(p.lower, ops) == After(p, EMPTY, steps).book
            && (r.verified <==> exists i :: TrustHistory.VerifiesAt(p.lower, ops, i, k) && TrustHistory.NoAddAfter(ops, i, k))
            && (r.revoked <==> exists i :: TrustHistory.RevokesAt(p.lower, ops, i, k) && TrustHistory.NoAddAfter(ops, i, k))
  {
    hide Invariant, Enabled, Apply, StoreOp, TrustHistory.VerifiesAt, TrustHistory.RevokesAt, TrustHistory.FreshAdds;
    EmptySound(p);
    var ops := StoreOps(p, EMPTY, steps);
    NoHistory(p.lower);
    HistoryGrows(p, EMPTY, steps, []);
    assert [] + ops == ops;
    TrustHistory.VerifiedHistory(p.lower, ops, k);
    TrustHistory.RevokedHistory(p.lower, ops, k);
  }

  lemma NoHistory(low: Str -> Str)
    ensures TrustHistory.Run(low, []) == map[] && TrustHistory.FreshAdds([])
  {
  }
}
