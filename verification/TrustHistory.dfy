/** What the marks of a contact say about the whole history of its store. */
module TrustHistory {
  import opened Bytes
  import opened Json
  import opened Contacts

  datatype Op =
    | Add(r: Record)
    | Verify(query: Str)
    | Revoke(query: Str, successor: Option<Str>)
    | Move(query: Str, host: Str, port: J)

  /** One operation of the store, whose queries are lowered by `low`. */
  ghost function Do(low: Str -> Str, b: Book, op: Op): Book
  {
    match op
    case Add(r) => Added(b, r)
    case Verify(q) => MarkedVerified(low, b, q)
    case Revoke(q, s) => MarkedRevoked(low, b, q, s)
    case Move(q, h, p) => AddressUpdated(low, b, q, h, p)
  }

  ghost function Run(low: Str -> Str, ops: seq<Op>): Book
  {
    if ops == [] then map[] else Do(low, Run(low, ops[..|ops| - 1]), ops[|ops| - 1])
  }

  /** Every caller of add passes a fresh contact: unverified, not revoked, no successor. */
  predicate FreshAdds(ops: seq<Op>)
  {
    forall i :: 0 <= i < |ops| && ops[i].Add? ==> !ops[i].r.verified && !ops[i].r.revoked && ops[i].r.successor == None
  }

  ghost predicate VerifiesAt(low: Str -> Str, ops: seq<Op>, i: nat, k: Str)
  {
    i < |ops| && ops[i].Verify? && Lookup(low, Run(low, ops[..i]).Keys, ops[i].query) == Some(k)
  }

  ghost predicate RevokesAt(low: Str -> Str, ops: seq<Op>, i: nat, k: Str)
  {
    i < |ops| && ops[i].Revoke? && Lookup(low, Run(low, ops[..i]).Keys, ops[i].query) == Some(k)
  }

  predicate NoAddAfter(ops: seq<Op>, i: nat, k: Str)
  {
    forall j :: i < j < |ops| && ops[j].Add? ==> ops[j].r.fingerprint != k
  }

  lemma Earlier(low: Str -> Str, ops: seq<Op>, i: nat, k: Str)
    requires ops != [] && i < |ops| - 1
    ensures VerifiesAt(low, ops, i, k) <==> VerifiesAt(low, ops[..|ops| - 1], i, k)
    ensures RevokesAt(low, ops, i, k) <==> RevokesAt(low, ops[..|ops| - 1], i, k)
  {
    assert ops[..|ops| - 1][..i] == ops[..i];
  }

  predicate Adds(op: Op, k: Str) { op.Add? && op.r.fingerprint == k }

  /** What one operation does to the record of contact `k`: nothing unless it adds `k` or resolves to `k`. */
  lemma OneStep(low: Str -> Str, b: Book, op: Op, k: Str)
    requires k in Do(low, b, op)
    ensures if Adds(op, k) then Do(low, b, op)[k] == op.r else k in b
    ensures !Adds(op, k) ==>
              (Do(low, b, op)[k].verified <==> b[k].verified || (op.Verify? && Lookup(low, b.Keys, op.query) == Some(k)))
    ensures !Adds(op, k) && op.Revoke? && Lookup(low, b.Keys, op.query) == Some(k) ==>
              Do(low, b, op)[k].revoked && Do(low, b, op)[k].successor == op.successor
    ensures !Adds(op, k) && !(op.Revoke? && Lookup(low, b.Keys, op.query) == Some(k)) ==>
              Do(low, b, op)[k].revoked == b[k].revoked && Do(low, b, op)[k].successor == b[k].successor
    ensures !Adds(op, k) && (op.Add? || Lookup(low, b.Keys, op.query) != Some(k)) ==> Do(low, b, op)[k] == b[k]
  {
  }

  /** A contact shows verified exactly when some mark_verified resolved to it after the latest add that
      created its record. */
  lemma {:induction false} VerifiedHistory(low: Str -> Str, ops: seq<Op>, k: Str)
    requires FreshAdds(ops) && k in Run(low, ops)
    ensures Run(low, ops)[k].verified <==> exists i :: VerifiesAt(low, ops, i, k) && NoAddAfter(ops, i, k)
  {
    hide Lookup, Do;
    var n := |ops| - 1;
    var pre, op := ops[..n], ops[n];
    OneStep(low, Run(low, pre), op, k);
    if !Adds(op, k) {
      VerifiedHistory(low, pre, k);
      if VerifiesAt(low, ops, n, k) { assert NoAddAfter(ops, n, k); }
      forall i | 0 <= i < n
        ensures VerifiesAt(low, ops, i, k) && NoAddAfter(ops, i, k) <==> VerifiesAt(low, pre, i, k) && NoAddAfter(pre, i, k)
      {
        Earlier(low, ops, i, k);
      }
    }
  }

  /** A contact shows revoked exactly when some mark_revoked resolved to it after the latest add that
      created its record. */
  lemma {:induction false} RevokedHistory(low: Str -> Str, ops: seq<Op>, k: Str)
    requires FreshAdds(ops) && k in Run(low, ops)
    ensures Run(low, ops)[k].revoked <==> exists i :: RevokesAt(low, ops, i, k) && NoAddAfter(ops, i, k)
  {
    hide Lookup, Do;
    var n := |ops| - 1;
    var pre, op := ops[..n], ops[n];
    OneStep(low, Run(low, pre), op, k);
    if !Adds(op, k) {
      RevokedHistory(low, pre, k);
      if RevokesAt(low, ops, n, k) { assert NoAddAfter(ops, n, k); }
      forall i | 0 <= i < n
        ensures RevokesAt(low, ops, i, k) && NoAddAfter(ops, i, k) <==> RevokesAt(low, pre, i, k) && NoAddAfter(pre, i, k)
      {
        Earlier(low, ops, i, k);
      }
    }
  }

  /** The successor shown is the one the last of those mark_revoked calls named. */
  lemma {:induction false} SuccessorHistory(low: Str -> Str, ops: seq<Op>, i: nat, k: Str)
    requires FreshAdds(ops) && k in Run(low, ops) && RevokesAt(low, ops, i, k) && NoAddAfter(ops, i, k)
    requires forall j: nat :: i < j ==> !RevokesAt(low, ops, j, k)
    ensures Run(low, ops)[k].successor == ops[i].successor
  {
    hide Lookup, Do;
    var n := |ops| - 1;
    var pre, op := ops[..n], ops[n];
    OneStep(low, Run(low, pre), op, k);
    if i < n {
      assert !RevokesAt(low, ops, n, k);
      forall j: nat | j < n ensures RevokesAt(low, ops, j, k) <==> RevokesAt(low, pre, j, k) { Earlier(low, ops, j, k); }
      SuccessorHistory(low, pre, i, k);
    }
  }

  lemma {:induction false} KeysGrow(low: Str -> Str, ops: seq<Op>, m: nat)
    requires m <= |ops|
    ensures Run(low, ops[..m]).Keys <= Run(low, ops).Keys
  {
    if m < |ops| {
      var n := |ops| - 1;
      KeysGrow(low, ops[..n], m);
      assert ops[..n][..m] == ops[..m];
    } else {
      assert ops[..m] == ops;
    }
  }

  /** Once a query has answered with a contact of a store keyed by fingerprints, no later operation
      makes it answer with another one; it can only become ambiguous. */
  lemma AnswersStay(low: Str -> Str, ops: seq<Op>, m: nat, query: Str)
    requires m <= |ops| && FingerprintKeys(Run(low, ops).Keys) && Lookup(low, Run(low, ops[..m]).Keys, query).Some?
    ensures Lookup(low, Run(low, ops).Keys, query) in {None, Lookup(low, Run(low, ops[..m]).Keys, query)}
  {
    hide Lookup;
    KeysGrow(low, ops, m);
    forall j, k | j in Run(low, ops) && k in Run(low, ops) && j <= k
      ensures j == k
    {
      assert k[..64] == k;
    }
    PrefixFreeKeeps(low, Run(low, ops[..m]).Keys, Run(low, ops).Keys, query);
    assert AnswerKept(low, Run(low, ops[..m]).Keys, Run(low, ops).Keys, query);
  }
}
