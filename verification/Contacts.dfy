/** storage.py's ContactStore: lookup by full fingerprint or unique prefix, and the marks it sets on
    Contact objects in place. */
module Contacts {
  import opened Bytes
  import opened Json
  import opened CryptoUtils

  /** A Contact as a value. `port` is whatever JSON value the peer announced. */
  datatype Record = Record(fingerprint: Str, rawPub: Str, host: Str, port: J, name: Str,
                           verified: bool, revoked: bool, successor: Option<Str>)

  type Book = map<Str, Record>

  // ---------------------------------------------------------------- lookup

  /** `str.lower()` on ASCII letters. */
  function AsciiLower(s: Str): (r: Str)
    ensures |r| == |s|
    ensures forall i :: 0 <= i < |s| ==> r[i] == if 65 <= s[i] <= 90 then s[i] + 32 else s[i]
  {
    seq(|s|, i requires 0 <= i < |s| => if 65 <= s[i] <= 90 then s[i] + 32 else s[i])
  }

  /** What is used of `str.lower()`: ASCII text is lowered letter by letter, and no text gets shorter. The functions
      below take the whole of it as `low`. */
  ghost predicate LikeStrLower(low: Str -> Str)
  {
    (forall s :: |low(s)| >= |s|) && forall s :: (forall i :: 0 <= i < |s| ==> s[i] < 128) ==> low(s) == AsciiLower(s)
  }

  lemma LowersAscii(low: Str -> Str, s: Str)
    requires LikeStrLower(low) && forall i :: 0 <= i < |s| ==> s[i] < 128
    ensures low(s) == AsciiLower(s)
  {
  }

  function StartingWith(keys: set<Str>, fp: Str): set<Str> { set k | k in keys && fp <= k }

  /** The fingerprint ContactStore.get resolves a query to: a full match, else a unique prefix match. */
  ghost function Lookup(low: Str -> Str, keys: set<Str>, query: Str): (r: Option<Str>)
    ensures r.Some? ==> r.value in keys && low(query) <= r.value
  {
    var fp := low(query);
    if fp in keys then Some(fp)
    else if k :| StartingWith(keys, fp) == {k} then
      assert k in StartingWith(keys, fp);
      Some(k)
    else None
  }

  lemma LookupIs(low: Str -> Str, keys: set<Str>, query: Str, k: Str)
    ensures Lookup(low, keys, query) == Some(k)
            <==> k in keys && (k == low(query) || (low(query) !in keys && StartingWith(keys, low(query)) == {k}))
  {
    if low(query) !in keys && StartingWith(keys, low(query)) == {k} {
      var j :| StartingWith(keys, low(query)) == {j};
      assert j in {k};
      assert Lookup(low, keys, query).Some?;
      assert Lookup(low, keys, query).value in {k};
    }
  }

  /** `[k for k in ks if k.startswith(fp)]` */
  function Filtered(ks: seq<Str>, fp: Str): seq<Str>
  {
    if ks == [] then []
    else Filtered(ks[..|ks| - 1], fp) + if fp <= ks[|ks| - 1] then [ks[|ks| - 1]] else []
  }

  lemma {:induction false} FilteredIs(ks: seq<Str>, fp: Str)
    requires forall i, j :: 0 <= i < j < |ks| ==> ks[i] != ks[j]
    ensures forall k :: k in Filtered(ks, fp) <==> k in ks && fp <= k
    ensures forall i, j :: 0 <= i < j < |Filtered(ks, fp)| ==> Filtered(ks, fp)[i] != Filtered(ks, fp)[j]
  {
    if ks != [] {
      var m, last := ks[..|ks| - 1], ks[|ks| - 1];
      FilteredIs(m, fp);
      assert ks == m + [last] && last !in m;
    }
  }

  /** Scanning the keys in dict order for a single match finds what Lookup does. */
  lemma UniqueMatch(low: Str -> Str, ks: seq<Str>, keys: set<Str>, query: Str)
    requires (forall k :: k in ks <==> k in keys) && forall i, j :: 0 <= i < j < |ks| ==> ks[i] != ks[j]
    requires low(query) !in keys
    ensures var l := Filtered(ks, low(query));
            Lookup(low, keys, query) == if |l| == 1 then Some(l[0]) else None
  {
    var fp := low(query);
    var l := Filtered(ks, fp);
    FilteredIs(ks, fp);
    var s := StartingWith(keys, fp);
    assert forall k :: k in l <==> k in s;
    if |l| == 0 {
      assert s == {};
    } else if |l| == 1 {
      assert l[0] in s && forall k :: k in s ==> k == l[0];
      assert s == {l[0]};
      LookupIs(low, keys, query, l[0]);
    } else {
      assert l[0] in s && l[1] in s && l[0] != l[1];
    }
  }

  lemma LowerHexUnchanged(low: Str -> Str, s: Str)
    requires LikeStrLower(low) && IsLowerHex(s)
    ensures low(s) == s
  {
    hide LikeStrLower;
    LowersAscii(low, s);
  }

  ghost predicate FingerprintKeys(keys: set<Str>) { forall k :: k in keys ==> |k| == 64 && IsLowerHex(k) }

  /** Among 64-character keys a 64-character query finds exactly itself in lower case. */
  lemma FullResolvesToItself(low: Str -> Str, keys: set<Str>, query: Str)
    requires LikeStrLower(low) && FingerprintKeys(keys) && |query| == 64
    ensures Lookup(low, keys, query) == if low(query) in keys then Some(low(query)) else None
  {
    forall k | k in StartingWith(keys, low(query))
      ensures k == low(query)
    {
      assert k[..64] == k;
    }
    if Lookup(low, keys, query).Some? { LookupIs(low, keys, query, Lookup(low, keys, query).value); }
  }

  /** A stored key finds its own record exactly when it is in lower case. */
  lemma OwnKeyResolves(low: Str -> Str, keys: set<Str>, k: Str)
    requires LikeStrLower(low) && k in keys
    ensures Lookup(low, keys, k) == Some(k) <==> low(k) == k
  {
    LookupIs(low, keys, k, k);
    if StartingWith(keys, low(k)) == {k} {
      assert k in StartingWith(keys, low(k));
    }
  }

  ghost predicate AnswerKept(low: Str -> Str, few: set<Str>, many: set<Str>, query: Str)
  {
    few <= many && Lookup(low, few, query).Some? && Lookup(low, many, query).Some?
    ==> Lookup(low, few, query) == Lookup(low, many, query)
  }

  /** No key that is its own lower case is a proper prefix of another key. */
  ghost predicate LowerPrefixFree(low: Str -> Str, keys: set<Str>)
  {
    forall j, k :: j in keys && k in keys && j <= k && j != k ==> low(j) != j
  }

  lemma PrefixFreeKeeps(low: Str -> Str, few: set<Str>, many: set<Str>, query: Str)
    requires forall j, k :: j in many && k in many && j <= k && j != k ==> low(query) != j
    ensures AnswerKept(low, few, many, query)
  {
    if few <= many && Lookup(low, few, query).Some? && Lookup(low, many, query).Some? {
      var j, k := Lookup(low, few, query).value, Lookup(low, many, query).value;
      LookupIs(low, few, query, j);
      LookupIs(low, many, query, k);
      if k != low(query) {
        assert j in StartingWith(many, low(query));
      }
    }
  }

  /** As contacts are added a query never moves from one contact to another, whatever the query and whichever
      contacts came first, exactly when no key in lower case is a proper prefix of another key. */
  lemma AnswersNeverMove(low: Str -> Str, many: set<Str>)
    requires forall s :: low(low(s)) == low(s)
    ensures LowerPrefixFree(low, many) <==> forall few, query :: AnswerKept(low, few, many, query)
  {
    if LowerPrefixFree(low, many) {
      forall few, query
        ensures AnswerKept(low, few, many, query)
      {
        assert low(low(query)) == low(query);
        PrefixFreeKeeps(low, few, many, query);
      }
    } else {
      var j, k :| j in many && k in many && j <= k && j != k && low(j) == j;
      var few := {k};
      assert StartingWith(few, j) == {k};
      LookupIs(low, few, j, k);
      LookupIs(low, many, j, j);
      assert !AnswerKept(low, few, many, j);
    }
  }

  // ---------------------------------------------------------------- the store's operations on values

  function Added(b: Book, r: Record): Book { b[r.fingerprint := r] }

  ghost function MarkedVerified(low: Str -> Str, b: Book, query: Str): Book
  {
    match Lookup(low, b.Keys, query)
    case None => b
    case Some(k) => b[k := b[k].(verified := true)]
  }

  ghost function MarkedRevoked(low: Str -> Str, b: Book, query: Str, successor: Option<Str>): Book
  {
    match Lookup(low, b.Keys, query)
    case None => b
    case Some(k) => b[k := b[k].(revoked := true, successor := successor)]
  }

  ghost function AddressUpdated(low: Str -> Str, b: Book, query: Str, host: Str, port: J): Book
  {
    match Lookup(low, b.Keys, query)
    case None => b
    case Some(k) => b[k := b[k].(host := host, port := port)]
  }

  /** What the three marks do to each record: the resolved one gets just that mark, every other stays. */
  lemma MarksAre(low: Str -> Str, b: Book, query: Str, k: Str, successor: Option<Str>, host: Str, port: J)
    requires k in b
    ensures var hit := Lookup(low, b.Keys, query) == Some(k);
            && MarkedVerified(low, b, query).Keys == MarkedRevoked(low, b, query, successor).Keys
               == AddressUpdated(low, b, query, host, port).Keys == b.Keys
            && MarkedVerified(low, b, query)[k] == (if hit then b[k].(verified := true) else b[k])
            && MarkedRevoked(low, b, query, successor)[k]
               == (if hit then b[k].(revoked := true, successor := successor) else b[k])
            && AddressUpdated(low, b, query, host, port)[k] == (if hit then b[k].(host := host, port := port) else b[k])
  {
    hide Lookup;
  }

  // ---------------------------------------------------------------- the store itself

  class Contact {
    const fingerprint: Str
    const rawPub: Str
    const name: Str
    var host: Str
    var port: J
    var verified: bool
    var revoked: bool
    var successor: Option<Str>

    /** A new contact: unverified, not revoked, no successor. */
    constructor (fingerprint: Str, rawPub: Str, host: Str, port: J, name: Str)
      ensures Value() == Record(fingerprint, rawPub, host, port, name, false, false, None)
    {
      this.fingerprint, this.rawPub, this.name := fingerprint, rawPub, name;
      this.host, this.port := host, port;
      verified, revoked, successor := false, false, None;
    }

    function Value(): Record
      reads this
    {
      Record(fingerprint, rawPub, host, port, name, verified, revoked, successor)
    }
  }

  ghost predicate Keyed(contacts: map<Str, Contact>) { forall k :: k in contacts ==> contacts[k].fingerprint == k }

  ghost function Values(contacts: map<Str, Contact>): Book
    reads contacts.Values
  {
    map k | k in contacts :: contacts[k].Value()
  }

  /** Writing to one contact's fields changes one record. */
  lemma OneChanged(contacts: map<Str, Contact>, was: Book, k: Str, r: Record)
    requires was.Keys == contacts.Keys && k in contacts && contacts[k].Value() == r
    requires forall j :: j in contacts && j != k ==> contacts[j].Value() == was[j]
    ensures Values(contacts) == was[k := r]
  {
  }

  lemma AddedValue(contacts: map<Str, Contact>, c: Contact)
    ensures Values(contacts[c.fingerprint := c]) == Added(Values(contacts), c.Value())
  {
  }

  /** `ks` lists the key set, each key once. */
  ghost predicate Ordered(ks: seq<Str>, keys: set<Str>)
  {
    (forall k :: k in ks <==> k in keys) && forall i, j :: 0 <= i < j < |ks| ==> ks[i] != ks[j]
  }

  lemma OrderedAppend(ks: seq<Str>, keys: set<Str>, k: Str)
    requires Ordered(ks, keys)
    ensures k in ks <==> k in keys
    ensures Ordered(if k in keys then ks else ks + [k], keys + {k})
  {
  }

  /** The dict of contacts: `keys` is its iteration order. Each contact is stored under its own fingerprint,
      so no object is stored twice. */
  class ContactStore {
    const low: Str -> Str
    var keys: seq<Str>
    var contacts: map<Str, Contact>

    ghost predicate Valid()
      reads this
    {
      Ordered(keys, contacts.Keys) && Keyed(contacts)
    }

    ghost function Book(): Book
      reads this, contacts.Values
    {
      Values(contacts)
    }

    constructor (low: Str -> Str)
      ensures Valid() && Book() == map[] && this.low == low
    {
      this.low, keys, contacts := low, [], map[];
    }

    /** get */
    method Get(fingerprint: Str) returns (c: Contact?)
      requires Valid()
      ensures match Lookup(low, contacts.Keys, fingerprint) { case None => c == null case Some(k) => c == contacts[k] }
    {
      var fp := low(fingerprint);
      if fp in contacts {
        return contacts[fp];
      }
      var matches: seq<Contact> := [];
      for i := 0 to |keys|
        invariant |matches| == |Filtered(keys[..i], fp)|
        invariant forall j :: 0 <= j < |matches| ==>
                    Filtered(keys[..i], fp)[j] in contacts && matches[j] == contacts[Filtered(keys[..i], fp)[j]]
      {
        assert keys[..i + 1][..i] == keys[..i];
        if fp <= keys[i] {
          matches := matches + [contacts[keys[i]]];
        }
      }
      assert keys[..|keys|] == keys;
      UniqueMatch(low, keys, contacts.Keys, fingerprint);
      c := if |matches| == 1 then matches[0] else null;
    }

    /** add (and update): a new key goes last, an existing one keeps its place. */
    method Add(contact: Contact)
      requires Valid()
      modifies this
      ensures Valid() && contacts == old(contacts)[contact.fingerprint := contact]
      ensures Book() == Added(old(Book()), contact.Value())
      ensures keys == old(keys) + if contact.fingerprint in old(contacts) then [] else [contact.fingerprint]
    {
      hide Ordered, Values, Added;
      AddedValue(contacts, contact);
      OrderedAppend(keys, contacts.Keys, contact.fingerprint);
      if contact.fingerprint !in contacts {
        keys := keys + [contact.fingerprint];
      }
      contacts := contacts[contact.fingerprint := contact];
      assert contacts.Keys == old(contacts).Keys + {contact.fingerprint};
    }

    method MarkVerified(fingerprint: Str) returns (ok: bool)
      requires Valid()
      modifies contacts.Values
      ensures Valid()
      ensures ok <==> Lookup(low, contacts.Keys, fingerprint).Some?
      ensures Book() == MarkedVerified(low, old(Book()), fingerprint)
    {
      hide Lookup;
      ghost var was := Book();
      assert was.Keys == contacts.Keys;
      var c := Get(fingerprint);
      ok := c != null;
      if c != null {
        assert contacts[c.fingerprint] == c;
        c.verified := true;
        OneChanged(contacts, was, c.fingerprint, was[c.fingerprint].(verified := true));
      }
    }

    method MarkRevoked(fingerprint: Str, successor: Option<Str>)
      requires Valid()
      modifies contacts.Values
      ensures Valid() && Book() == MarkedRevoked(low, old(Book()), fingerprint, successor)
    {
      hide Lookup;
      ghost var was := Book();
      assert was.Keys == contacts.Keys;
      var c := Get(fingerprint);
      if c != null {
        assert contacts[c.fingerprint] == c;
        c.revoked := true;
        c.successor := successor;
        OneChanged(contacts, was, c.fingerprint, was[c.fingerprint].(revoked := true, successor := successor));
      }
    }

    method UpdateAddress(fingerprint: Str, host: Str, port: J)
      requires Valid()
      modifies contacts.Values
      ensures Valid() && Book() == AddressUpdated(low, old(Book()), fingerprint, host, port)
    {
      hide Lookup;
      ghost var was := Book();
      assert was.Keys == contacts.Keys;
      var c := Get(fingerprint);
      if c != null {
        assert contacts[c.fingerprint] == c;
        c.host := host;
        c.port := port;
        OneChanged(contacts, was, c.fingerprint, was[c.fingerprint].(host := host, port := port));
      }
    }
  }
}
