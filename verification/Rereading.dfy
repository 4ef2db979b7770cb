/** Values printed, read and printed again: when the second text is the first. A signature is checked on the second. */
module Rereading {
  import opened Bytes
  import opened Json

  /** The keys as they are read back. */
  function ReadKeys(ks: seq<Str>): (l: seq<Str>)
    ensures |l| == |ks| && forall i :: 0 <= i < |ks| ==> l[i] == Join(Units(ks[i]))
  {
    seq(|ks|, i requires 0 <= i < |ks| => Join(Units(ks[i])))
  }

  /** The keys of every dict in the value, read back, are still distinct and in the same order. */
  predicate KeysKeepOrder(j: J)
  {
    match j
    case JArr(a) => forall i :: 0 <= i < |a| ==> KeysKeepOrder(a[i])
    case JObj(m) => StrictlySorted(ReadKeys(SortedKeys(m.Keys))) && forall k :: k in m ==> KeysKeepOrder(m[k])
    case _ => true
  }

  lemma {:induction false} FromItemsAt(j: J, i: nat)
    requires j.JArr? && i <= |j.a|
    ensures |FromItems(ItemsFrom(j, i))| == |j.a| - i
    ensures forall k :: 0 <= k < |j.a| - i ==> FromItems(ItemsFrom(j, i))[k] == AsRead(j.a[i + k])
    decreases |j.a| - i
  {
    hide ToRaw, FromRaw;
    if i < |j.a| { FromItemsAt(j, i + 1); }
  }

  lemma {:induction false} SameItems(j: J, k: J, i: nat)
    requires j.JArr? && k.JArr? && |j.a| == |k.a| && i <= |j.a|
    ensures ItemsFrom(j, i) == ItemsFrom(k, i) <==> forall x :: i <= x < |j.a| ==> ToRaw(j.a[x]) == ToRaw(k.a[x])
    decreases |j.a| - i
  {
    hide ToRaw;
    if i < |j.a| { SameItems(j, k, i + 1); }
  }

  predicate SameFieldAt(j: J, ks: seq<Str>, k: J, ls: seq<Str>, i: nat)
    requires j.JObj? && k.JObj? && (forall x :: x in ks ==> x in j.m) && forall x :: x in ls ==> x in k.m
    requires i < |ks| && i < |ls|
  {
    Units(ks[i]) == Units(ls[i]) && ToRaw(j.m[ks[i]]) == ToRaw(k.m[ls[i]])
  }

  lemma {:induction false} SameFields(j: J, ks: seq<Str>, k: J, ls: seq<Str>)
    requires j.JObj? && k.JObj? && (forall x :: x in ks ==> x in j.m) && forall x :: x in ls ==> x in k.m
    ensures FieldsFor(j, ks) == FieldsFor(k, ls)
            <==> |ks| == |ls| && forall i :: 0 <= i < |ks| ==> SameFieldAt(j, ks, k, ls, i)
  {
    if ks != [] && ls != [] {
      SameFields(j, ks[1..], k, ls[1..]);
      if FieldsFor(j, ks) == FieldsFor(k, ls) {
        forall i | 0 <= i < |ks|
          ensures SameFieldAt(j, ks, k, ls, i)
        {
          if i > 0 { assert SameFieldAt(j, ks[1..], k, ls[1..], i - 1); }
        }
      }
      if |ks| == |ls| && forall i :: 0 <= i < |ks| ==> SameFieldAt(j, ks, k, ls, i) {
        assert SameFieldAt(j, ks, k, ls, 0);
        forall i | 0 <= i < |ks| - 1
          ensures SameFieldAt(j, ks[1..], k, ls[1..], i)
        {
          assert SameFieldAt(j, ks, k, ls, i + 1);
        }
      }
    }
  }

  lemma ConsRead(j: J, ks: seq<Str>)
    requires j.JObj? && ks != [] && forall k :: k in ks ==> k in j.m
    ensures var l := ReadKeys(ks);
            && l == [l[0]] + ReadKeys(ks[1..]) && l[0] == Join(Units(ks[0]))
            && FromFields(FieldsFor(j, ks)) == map[l[0] := AsRead(j.m[ks[0]])] + FromFields(FieldsFor(j, ks[1..]))
  {
    hide Join, ToRaw, FromRaw, Units;
  }

  lemma {:induction false} KeysRead(j: J, ks: seq<Str>)
    requires j.JObj? && forall k :: k in ks ==> k in j.m
    ensures forall x :: x in FromFields(FieldsFor(j, ks)) <==> x in ReadKeys(ks)
  {
    hide ReadKeys, ToRaw, FromRaw;
    if ks != [] {
      KeysRead(j, ks[1..]);
      ConsRead(j, ks);
    }
  }

  /** Where the keys read back are distinct each has its own value. */
  lemma {:induction false} ValueRead(j: J, ks: seq<Str>, x: Str)
    requires j.JObj? && (forall k :: k in ks ==> k in j.m) && x in ks && StrictlySorted(ReadKeys(ks))
    ensures var m, y := FromFields(FieldsFor(j, ks)), Join(Units(x)); y in m && m[y] == AsRead(j.m[x])
  {
    hide ToRaw, AsRead, FromFields, FieldsFor, ReadKeys, StrictlySorted, Join, Units;
    var t := ks[1..];
    assert ks == [ks[0]] + t;
    ConsRead(j, ks);
    TailSorted(ReadKeys(ks), ReadKeys(t));
    KeysRead(j, t);
    if x in t {
      ValueRead(j, t, x);
    }
  }

  lemma TailSorted(l: seq<Str>, t: seq<Str>)
    requires l != [] && l == [l[0]] + t && StrictlySorted(l)
    ensures StrictlySorted(t) && l[0] !in t && forall i :: 0 < i < |l| ==> l[i] == t[i - 1] && l[i] != l[0]
  {
    hide LessEq;
    assert forall i :: 0 < i < |l| ==> l[i] == t[i - 1] && l[i] != l[0];
    assert forall i :: 0 <= i < |t| ==> t[i] == l[i + 1];
    forall i, j | 0 <= i < j < |t|
      ensures LessEq(t[i], t[j]) && t[i] != t[j]
    {
      assert t[i] == l[i + 1] && t[j] == l[j + 1];
    }
  }

  /** A value read back prints as before exactly when no dict in it has keys that, read back, change order or fall
      together. */
  lemma {:induction false} PrintsAsBefore(j: J)
    ensures ToRaw(AsRead(j)) == ToRaw(j) <==> KeysKeepOrder(j)
    decreases j, 1
  {
    match j
    case JStr(s) => UnitsJoin(Units(s));
    case JArr(a) => ArrayPrintsAsBefore(j);
    case JObj(m) => ObjectPrintsAsBefore(j);
    case _ =>
  }

  lemma ArrayPrintsAsBefore(j: J)
    requires j.JArr?
    ensures ToRaw(AsRead(j)) == ToRaw(j) <==> KeysKeepOrder(j)
    decreases j, 0
  {
    var k := AsRead(j);
    FromItemsAt(j, 0);
    forall i | 0 <= i < |j.a|
      ensures ToRaw(AsRead(j.a[i])) == ToRaw(j.a[i]) <==> KeysKeepOrder(j.a[i])
    {
      PrintsAsBefore(j.a[i]);
    }
    ItemsPrintAsBefore(j, k);
  }

  lemma ItemsPrintAsBefore(j: J, k: J)
    requires j.JArr? && k.JArr? && |k.a| == |j.a| && forall i :: 0 <= i < |j.a| ==> k.a[i] == AsRead(j.a[i])
    requires forall i :: 0 <= i < |j.a| ==> (ToRaw(AsRead(j.a[i])) == ToRaw(j.a[i]) <==> KeysKeepOrder(j.a[i]))
    ensures ToRaw(k) == ToRaw(j) <==> KeysKeepOrder(j)
  {
    hide FromRaw, ItemsFrom;
    SameItems(k, j, 0);
    assert ToRaw(k) == RArr(ItemsFrom(k, 0)) && ToRaw(j) == RArr(ItemsFrom(j, 0));
    hide ToRaw;
    assert KeysKeepOrder(j) <==> forall i :: 0 <= i < |j.a| ==> KeysKeepOrder(j.a[i]);
    hide KeysKeepOrder;
    assert forall i :: 0 <= i < |j.a| ==> (ToRaw(k.a[i]) == ToRaw(j.a[i]) <==> KeysKeepOrder(j.a[i]));
  }

  lemma ObjectPrintsAsBefore(j: J)
    requires j.JObj?
    ensures ToRaw(AsRead(j)) == ToRaw(j) <==> KeysKeepOrder(j)
    decreases j, 0
  {
    forall x | x in j.m
      ensures ToRaw(AsRead(j.m[x])) == ToRaw(j.m[x]) <==> KeysKeepOrder(j.m[x])
    {
      PrintsAsBefore(j.m[x]);
    }
    hide ToRaw, AsRead, SortedKeys, ReadKeys, StrictlySorted;
    if StrictlySorted(ReadKeys(SortedKeys(j.m.Keys))) {
      OrderKept(j);
    } else if ToRaw(AsRead(j)) == ToRaw(j) {
      SameTextKeepsOrder(j);
    }
  }

  lemma ObjectRead(j: J)
    requires j.JObj?
    ensures AsRead(j) == JObj(FromFields(FieldsFor(j, SortedKeys(j.m.Keys))))
  {
  }

  lemma TextOfObject(j: J)
    requires j.JObj?
    ensures ToRaw(j) == RObj(FieldsFor(j, SortedKeys(j.m.Keys)))
  {
  }

  lemma FieldRead(j: J, k: J, ks: seq<Str>, l: seq<Str>, i: nat)
    requires j.JObj? && k.JObj? && (forall x :: x in ks ==> x in j.m) && (forall x :: x in l ==> x in k.m)
    requires l == ReadKeys(ks) && i < |ks| && k.m[l[i]] == AsRead(j.m[ks[i]])
    ensures SameFieldAt(k, l, j, ks, i) <==> ToRaw(AsRead(j.m[ks[i]])) == ToRaw(j.m[ks[i]])
  {
    hide ToRaw, AsRead;
    UnitsJoin(Units(ks[i]));
  }

  lemma OrderKept(j: J)
    requires j.JObj? && StrictlySorted(ReadKeys(SortedKeys(j.m.Keys)))
    requires forall x :: x in j.m ==> (ToRaw(AsRead(j.m[x])) == ToRaw(j.m[x]) <==> KeysKeepOrder(j.m[x]))
    ensures ToRaw(AsRead(j)) == ToRaw(j) <==> forall x :: x in j.m ==> KeysKeepOrder(j.m[x])
  {
    ObjectRead(j);
    hide AsRead, KeysKeepOrder, StrictlySorted, ToRaw, FieldsFor, FromFields, ReadKeys, SortedKeys;
    ReadSorted(j);
    TextOfObject(j);
    TextOfObject(AsRead(j));
    FieldsKept(j, AsRead(j), SortedKeys(j.m.Keys), ReadKeys(SortedKeys(j.m.Keys)));
  }

  lemma ReadSorted(j: J)
    requires j.JObj? && StrictlySorted(ReadKeys(SortedKeys(j.m.Keys)))
    ensures AsRead(j).JObj? && SortedKeys(AsRead(j).m.Keys) == ReadKeys(SortedKeys(j.m.Keys))
  {
    ObjectRead(j);
    hide AsRead, StrictlySorted, FieldsFor, FromFields, ReadKeys;
    KeysRead(j, SortedKeys(j.m.Keys));
    SortedKeysUnique(ReadKeys(SortedKeys(j.m.Keys)), AsRead(j).m.Keys);
  }

  lemma FieldsKept(j: J, k: J, ks: seq<Str>, l: seq<Str>)
    requires j.JObj? && k == JObj(FromFields(FieldsFor(j, SortedKeys(j.m.Keys)))) && ks == SortedKeys(j.m.Keys)
    requires l == ReadKeys(ks) && StrictlySorted(l) && l == SortedKeys(k.m.Keys)
    requires forall x :: x in j.m ==> (ToRaw(AsRead(j.m[x])) == ToRaw(j.m[x]) <==> KeysKeepOrder(j.m[x]))
    ensures FieldsFor(k, l) == FieldsFor(j, ks) <==> forall x :: x in j.m ==> KeysKeepOrder(j.m[x])
  {
    hide AsRead, KeysKeepOrder, StrictlySorted, ToRaw, FieldsFor, FromFields, SameFieldAt, SortedKeys;
    SameFields(k, l, j, ks);
    forall i | 0 <= i < |ks|
      ensures SameFieldAt(k, l, j, ks, i) <==> KeysKeepOrder(j.m[ks[i]])
    {
      assert ks[i] in ks;
      ValueRead(j, ks, ks[i]);
      FieldRead(j, k, ks, l, i);
    }
    EveryListed(j.m, ks);
  }

  lemma EveryListed(m: map<Str, J>, ks: seq<Str>)
    requires forall k :: k in ks <==> k in m
    ensures (forall i :: 0 <= i < |ks| ==> KeysKeepOrder(m[ks[i]])) <==> forall x :: x in m ==> KeysKeepOrder(m[x])
  {
    hide KeysKeepOrder;
    if forall i :: 0 <= i < |ks| ==> KeysKeepOrder(m[ks[i]]) {
      forall x | x in m
        ensures KeysKeepOrder(m[x])
      {
        assert x in ks;
      }
    }
  }

  lemma SameTextKeepsOrder(j: J)
    requires j.JObj? && ToRaw(AsRead(j)) == ToRaw(j)
    ensures StrictlySorted(ReadKeys(SortedKeys(j.m.Keys)))
  {
    var k, ks := AsRead(j), SortedKeys(j.m.Keys);
    ReadUnpaired(ToRaw(j));
    ObjectRead(j);
    var ls := SortedKeys(k.m.Keys);
    SortedKeysSorted(k.m.Keys);
    TextOfObject(j);
    TextOfObject(k);
    hide AsRead, ToRaw, FieldsFor, FromFields, SameFieldAt, ReadKeys, StrictlySorted, SortedKeys;
    SameFields(k, ls, j, ks);
    SameUnitsSameRead(k, ls, j, ks);
  }

  lemma SameUnitsSameRead(k: J, ls: seq<Str>, j: J, ks: seq<Str>)
    requires j.JObj? && k.JObj? && (forall x :: x in ks ==> x in j.m) && (forall x :: x in ls ==> x in k.m)
    requires Unpaired(k) && |ls| == |ks| && forall i :: 0 <= i < |ls| ==> SameFieldAt(k, ls, j, ks, i)
    ensures ls == ReadKeys(ks)
  {
    forall i | 0 <= i < |ls|
      ensures ls[i] == ReadKeys(ks)[i]
    {
      assert SameFieldAt(k, ls, j, ks, i);
      assert ls[i] in k.m;
      JoinUnits(ls[i]);
    }
  }

  /** Two keys that change order: the pair of lone surrogates comes before U+E000, the character it is read as after. */
  lemma PairedKeysSwap()
    ensures !KeysKeepOrder(JObj(map[[0xD83D, 0xDE00] := JNull, [0xE000] := JNull]))
  {
    var pair: Str, other: Str := [0xD83D, 0xDE00], [0xE000];
    var m: map<Str, J> := map[pair := JNull, other := JNull];
    var ks := [pair, other];
    assert StrictlySorted(ks);
    SortedKeysUnique(ks, m.Keys);
    assert Units(pair) == [0xD83D] + Units(pair[1..]) && Units(pair[1..]) == [0xDE00] + Units([]);
    assert Units(other) == [0xE000] + Units([]);
    var u: seq<codeunit>, v: seq<codeunit> := [0xD83D, 0xDE00], [0xE000];
    assert Join(u) == [0x1F600] + Join(u[2..]) && Join(v) == [0xE000] + Join(v[1..]);
    var l := ReadKeys(ks);
    assert l[0][0] == 0x1F600 && l[1][0] == 0xE000;
    assert !LessEq(l[0], l[1]);
  }

  /** Keys without surrogate pairs are read back as they were. */
  lemma ReadSame(ks: seq<Str>)
    requires forall k :: k in ks ==> NoPair(k)
    ensures ReadKeys(ks) == ks
  {
    hide NoPair;
    forall i | 0 <= i < |ks|
      ensures ReadKeys(ks)[i] == ks[i]
    {
      assert ks[i] in ks;
      JoinUnits(ks[i]);
    }
  }

  predicate KeysUnpaired(j: J)
  {
    match j
    case JArr(a) => forall i :: 0 <= i < |a| ==> KeysUnpaired(a[i])
    case JObj(m) => forall k :: k in m ==> NoPair(k) && KeysUnpaired(m[k])
    case _ => true
  }

  lemma {:induction false} UnpairedKeysKeepOrder(j: J)
    requires KeysUnpaired(j)
    ensures KeysKeepOrder(j)
  {
    match j
    case JArr(a) =>
      forall i | 0 <= i < |a| ensures KeysKeepOrder(a[i]) { UnpairedKeysKeepOrder(a[i]); }
    case JObj(m) =>
      forall k | k in m ensures KeysKeepOrder(m[k]) { UnpairedKeysKeepOrder(m[k]); }
      ReadSame(SortedKeys(m.Keys));
      SortedKeysSorted(m.Keys);
    case _ =>
  }

  /** A dict whose own keys have no surrogate pair is read back key by key. */
  lemma DictRead(m: map<Str, J>)
    requires forall k :: k in m ==> NoPair(k)
    ensures AsRead(JObj(m)).JObj? && AsRead(JObj(m)).m.Keys == m.Keys
    ensures forall k :: k in m ==> AsRead(JObj(m)).m[k] == AsRead(m[k])
  {
    var j, ks := JObj(m), SortedKeys(m.Keys);
    hide AsRead, FieldsFor, FromFields, ReadKeys, StrictlySorted, SortedKeys, Join, Units, NoPair;
    ReadSame(ks);
    SortedKeysSorted(m.Keys);
    ObjectRead(j);
    KeysRead(j, ks);
    forall k | k in m
      ensures AsRead(JObj(m)).m[k] == AsRead(m[k])
    {
      assert k in ks;
      JoinUnits(k);
      ValueRead(j, ks, k);
    }
    assert forall k :: k in AsRead(JObj(m)).m <==> k in ks;
  }
}
