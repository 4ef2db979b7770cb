/** The compact JSON text that `json.dumps(v, separators=(',', ':'), sort_keys=True)` prints
    (ensure_ascii, section 7 of RFC 8259 escapes) and the part of `json.loads` that reads it back.

    A value goes to text in two steps: ToRaw fixes what the text depends on (UTF-16 code units
    of every string, fields in sorted order), PrintRaw lays that out as bytes. */
module Json {
  import opened Bytes
  import opened Text

  /** The bytes Python's number texts are made of, NaN and the infinities included. */
  predicate IsTokenChar(b: int) { IsDigit(b) || b in {43, 45, 46, 69, 73, 78, 97, 101, 102, 105, 110, 116, 121} }

  predicate IsToken(t: Bytes) { forall i :: 0 <= i < |t| ==> IsTokenChar(t[i]) }

  /** Begins as a number does, and is not an integer. Which of these texts repr prints for a float is left open. */
  predicate IsFloatText(t: Bytes)
  {
    && t != [] && IsToken(t) && (IsDigit(t[0]) || t[0] in {45, 73, 78})
    && exists i :: 0 <= i < |t| && !IsDigit(t[i]) && !(i == 0 && t[i] == 45)
  }

  /** `0.0` */
  function ZeroText(): (t: Bytes)
    ensures IsFloatText(t)
  {
    var t := [48, 46, 48];
    assert t[1] == 46;
    t
  }

  /** `-0.0` */
  function MinusZeroText(): (t: Bytes)
    ensures IsFloatText(t)
  {
    var t := [45, 48, 46, 48];
    assert t[2] == 46;
    t
  }

  type floattext = t: Bytes | IsFloatText(t) witness ZeroText()

  /** JSON values as Python holds them: an object is a dict, an integer is unbounded, and a float is kept as the text
      repr gives it. */
  datatype J =
    | JNull
    | JBool(b: bool)
    | JInt(n: int)
    | JFloat(t: floattext)
    | JStr(s: Str)
    | JArr(a: seq<J>)
    | JObj(m: map<Str, J>)

  type codeunit = x: int | 0 <= x < 0x1_0000

  datatype Raw =
    | RNull | RBool(b: bool) | RInt(n: int) | RFloat(t: floattext) | RStr(u: seq<codeunit>)
    | RArr(items: Items) | RObj(fields: Fields)
  datatype Items = INil | ICons(head: Raw, tail: Items)
  datatype Fields = FNil | FCons(key: seq<codeunit>, val: Raw, rest: Fields)

  // ---------------------------------------------------------------- strings as code units

  function UnitsOf(c: codepoint): (r: seq<codeunit>)
    ensures r != []
  {
    if c < 0x1_0000 then [c] else [0xD800 + (c - 0x1_0000) / 0x400, 0xDC00 + (c - 0x1_0000) % 0x400]
  }

  function Units(s: Str): seq<codeunit>
  {
    if s == [] then [] else UnitsOf(s[0]) + Units(s[1..])
  }

  predicate IsHigh(u: int) { 0xD800 <= u < 0xDC00 }
  predicate IsLow(u: int) { 0xDC00 <= u < 0xE000 }

  /** What the reader makes of a run of escapes: an adjacent surrogate pair becomes one code point. */
  function Join(u: seq<codeunit>): Str
  {
    if u == [] then []
    else if |u| >= 2 && IsHigh(u[0]) && IsLow(u[1]) then
      [0x1_0000 + (u[0] - 0xD800) * 0x400 + (u[1] - 0xDC00)] + Join(u[2..])
    else [u[0]] + Join(u[1..])
  }

  /** No lone high surrogate stands right before a lone low one. */
  predicate NoPair(s: Str) { forall i :: 0 <= i < |s| - 1 ==> !(IsHigh(s[i]) && IsLow(s[i + 1])) }

  lemma {:induction false} JoinUnits(s: Str)
    requires NoPair(s)
    ensures Join(Units(s)) == s
  {
    if s != [] {
      var u := Units(s);
      NoPairTail(s);
      JoinUnits(s[1..]);
      assert s == [s[0]] + s[1..];
      if s[0] >= 0x1_0000 {
        assert u[2..] == Units(s[1..]);
      } else {
        assert u[1..] == Units(s[1..]);
        if |s| > 1 { assert u[1] == UnitsOf(s[1])[0]; }
      }
    }
  }

  lemma NoPairTail(s: Str)
    requires s != [] && NoPair(s)
    ensures NoPair(s[1..])
  {
    assert forall i :: 0 <= i < |s| - 1 ==> s[1..][i] == s[i + 1];
  }

  /** Reading escapes keeps the code units. */
  lemma {:induction false} UnitsJoin(u: seq<codeunit>)
    ensures Units(Join(u)) == u
  {
    if u != [] {
      if |u| >= 2 && IsHigh(u[0]) && IsLow(u[1]) {
        UnitsJoin(u[2..]);
        PairUnits(u[0], u[1]);
        assert u == [u[0], u[1]] + u[2..];
      } else {
        UnitsJoin(u[1..]);
        assert u == [u[0]] + u[1..];
      }
    }
  }

  lemma PairUnits(h: codeunit, l: codeunit)
    requires IsHigh(h) && IsLow(l)
    ensures UnitsOf(0x1_0000 + (h - 0xD800) * 0x400 + (l - 0xDC00)) == [h, l]
  {
  }

  /** What the reader returns has no such pair left. */
  lemma {:induction false} JoinNoPair(u: seq<codeunit>)
    ensures NoPair(Join(u))
  {
    if u != [] {
      var t := Join(u)[1..];
      if |u| >= 2 && IsHigh(u[0]) && IsLow(u[1]) {
        JoinNoPair(u[2..]);
        assert t == Join(u[2..]);
      } else {
        JoinNoPair(u[1..]);
        assert t == Join(u[1..]);
      }
      assert forall i :: 0 < i < |Join(u)| ==> Join(u)[i] == t[i - 1];
    }
  }

  /** Basic-plane text without surrogates: one code unit per code point. */
  predicate PlainStr(s: Str) { forall i :: 0 <= i < |s| ==> s[i] < 0x1_0000 && !IsSurrogate(s[i]) }

  /** Nothing else has the code units of plain text, lone surrogates included. */
  lemma {:induction false} PlainUnits(s: Str, t: Str)
    requires PlainStr(t) && Units(s) == Units(t)
    ensures s == t
  {
    if s != [] && t != [] {
      assert Units(s)[0] == UnitsOf(s[0])[0] && Units(t)[0] == t[0];
      assert Units(s)[1..] == Units(s[1..]) && Units(t)[1..] == Units(t[1..]);
      PlainUnits(s[1..], t[1..]);
      assert s == [s[0]] + s[1..] && t == [t[0]] + t[1..];
    }
  }

  // ---------------------------------------------------------------- dict keys in order

  /** Python's order on strings: by code point, a prefix before its extensions. */
  predicate LessEq(a: Str, b: Str)
  {
    a == [] || (b != [] && (a[0] < b[0] || (a[0] == b[0] && LessEq(a[1..], b[1..]))))
  }

  lemma {:induction false} LessEqTotal(a: Str, b: Str)
    ensures LessEq(a, b) || LessEq(b, a)
    ensures LessEq(a, b) && LessEq(b, a) ==> a == b
  {
    if a != [] && b != [] {
      LessEqTotal(a[1..], b[1..]);
      assert a == [a[0]] + a[1..] && b == [b[0]] + b[1..];
    }
  }

  lemma {:induction false} LessEqTrans(a: Str, b: Str, c: Str)
    requires LessEq(a, b) && LessEq(b, c)
    ensures LessEq(a, c)
  {
    if a != [] && a[0] == b[0] == c[0] {
      LessEqTrans(a[1..], b[1..], c[1..]);
    }
  }

  lemma {:induction false} LessAt(a: Str, b: Str, k: nat)
    requires k < |a| && k < |b| && a[..k] == b[..k] && a[k] < b[k]
    ensures LessEq(a, b) && a != b
  {
    if k > 0 {
      assert a[0] == a[..k][0] == b[..k][0] == b[0];
      assert a[1..][..k - 1] == a[..k][1..] && b[1..][..k - 1] == b[..k][1..];
      LessAt(a[1..], b[1..], k - 1);
    }
  }

  predicate IsLeast(k: Str, s: set<Str>) { k in s && forall l :: l in s ==> LessEq(k, l) }

  lemma {:induction false} LeastExists(s: set<Str>)
    requires s != {}
    ensures exists k :: IsLeast(k, s)
  {
    var k :| k in s;
    LessEqTotal(k, k);
    var t := s - {k};
    if t == {} {
      assert s == {k};
      assert IsLeast(k, s);
    } else {
      LeastExists(t);
      var j :| IsLeast(j, t);
      LessEqTotal(k, j);
      if LessEq(k, j) {
        forall l | l in t ensures LessEq(k, l) { LessEqTrans(k, j, l); }
        assert IsLeast(k, s);
      } else {
        assert IsLeast(j, s);
      }
    }
  }

  lemma LeastUnique(s: set<Str>)
    ensures forall k, l :: IsLeast(k, s) && IsLeast(l, s) ==> k == l
  {
    forall k, l | IsLeast(k, s) && IsLeast(l, s)
      ensures k == l
    {
      LessEqTotal(k, l);
    }
  }

  /** `sorted(d)` for a dict with key set `s`. */
  function SortedKeys(s: set<Str>): (ks: seq<Str>)
    ensures |ks| == |s| && forall k :: k in ks <==> k in s
  {
    if s == {} then [] else
      LeastExists(s);
      LeastUnique(s);
      var k :| k in s && IsLeast(k, s);
      [k] + SortedKeys(s - {k})
  }

  predicate StrictlySorted(ks: seq<Str>)
  {
    forall i, j :: 0 <= i < j < |ks| ==> LessEq(ks[i], ks[j]) && ks[i] != ks[j]
  }

  lemma ConsSorted(k: Str, ks: seq<Str>)
    requires StrictlySorted(ks) && forall l :: l in ks ==> LessEq(k, l) && k != l
    ensures StrictlySorted([k] + ks)
  {
    var s := [k] + ks;
    forall i, j | 0 <= i < j < |s|
      ensures LessEq(s[i], s[j]) && s[i] != s[j]
    {
      assert s[j] == ks[j - 1] && s[j] in ks;
    }
  }

  lemma {:induction false} SortedKeysSorted(s: set<Str>)
    ensures StrictlySorted(SortedKeys(s))
  {
    if s != {} {
      var k := SortedKeys(s)[0];
      SortedKeysSorted(s - {k});
      ConsSorted(k, SortedKeys(s - {k}));
    }
  }

  /** The only strictly sorted listing of a key set is SortedKeys. */
  lemma {:induction false} SortedKeysUnique(ks: seq<Str>, s: set<Str>)
    requires StrictlySorted(ks) && forall k :: k in ks <==> k in s
    ensures SortedKeys(s) == ks
    decreases |ks|
  {
    if ks == [] {
      assert s == {};
    } else {
      assert ks[0] in s;
      LessEqTotal(SortedKeys(s)[0], ks[0]);
      var t := s - {ks[0]};
      assert ks == [ks[0]] + ks[1..];
      forall k
        ensures k in ks[1..] <==> k in t
      {
      }
      SortedKeysUnique(ks[1..], t);
    }
  }

  // ---------------------------------------------------------------- values to trees

  function ToRaw(j: J): Raw
    decreases j, 1, 0
  {
    match j
    case JNull => RNull
    case JBool(b) => RBool(b)
    case JInt(n) => RInt(n)
    case JFloat(t) => RFloat(t)
    case JStr(s) => RStr(Units(s))
    case JArr(a) => RArr(ItemsFrom(j, 0))
    case JObj(m) => RObj(FieldsFor(j, SortedKeys(m.Keys)))
  }

  function ItemsFrom(j: J, i: nat): Items
    requires j.JArr? && i <= |j.a|
    decreases j, 0, |j.a| - i
  {
    if i == |j.a| then INil else ICons(ToRaw(j.a[i]), ItemsFrom(j, i + 1))
  }

  function FieldsFor(j: J, ks: seq<Str>): Fields
    requires j.JObj? && forall k :: k in ks ==> k in j.m
    decreases j, 0, |ks|
  {
    if ks == [] then FNil else FCons(Units(ks[0]), ToRaw(j.m[ks[0]]), FieldsFor(j, ks[1..]))
  }

  function FromRaw(r: Raw): J
  {
    match r
    case RNull => JNull
    case RBool(b) => JBool(b)
    case RInt(n) => JInt(n)
    case RFloat(t) => JFloat(t)
    case RStr(u) => JStr(Join(u))
    case RArr(items) => JArr(FromItems(items))
    case RObj(fields) => JObj(FromFields(fields))
  }

  function FromItems(l: Items): seq<J>
  {
    match l
    case INil => []
    case ICons(h, t) => [FromRaw(h)] + FromItems(t)
  }

  /** Duplicate names: the last one wins, as in a Python dict. */
  function FromFields(f: Fields): map<Str, J>
  {
    match f
    case FNil => map[]
    case FCons(k, v, t) => map[Join(k) := FromRaw(v)] + FromFields(t)
  }

  /** No string in the value, dict keys included, has a lone high surrogate right before a lone low one. */
  predicate Unpaired(j: J)
  {
    match j
    case JStr(s) => NoPair(s)
    case JArr(a) => forall i :: 0 <= i < |a| ==> Unpaired(a[i])
    case JObj(m) => forall k :: k in m ==> NoPair(k) && Unpaired(m[k])
    case _ => true
  }

  lemma {:induction false} FromToRaw(j: J)
    requires Unpaired(j)
    ensures FromRaw(ToRaw(j)) == j
    decreases j, 1, 0
  {
    match j
    case JStr(s) => JoinUnits(s);
    case JArr(a) =>
      FromToItems(j, 0);
      assert a[0..] == a;
    case JObj(m) => FromToObject(j);
    case _ =>
  }

  lemma {:induction false} FromToObject(j: J)
    requires j.JObj? && Unpaired(j)
    ensures FromFields(FieldsFor(j, SortedKeys(j.m.Keys))) == j.m
    decreases j, 0, |j.m| + 1
  {
    FromToFields(j, SortedKeys(j.m.Keys));
    EveryKey(j.m);
  }

  lemma EveryKey(m: map<Str, J>)
    ensures (map k | k in SortedKeys(m.Keys) :: m[k]) == m
  {
    assert forall k :: k in SortedKeys(m.Keys) <==> k in m;
  }

  lemma {:induction false} FromToItems(j: J, i: nat)
    requires j.JArr? && i <= |j.a| && Unpaired(j)
    ensures FromItems(ItemsFrom(j, i)) == j.a[i..]
    decreases j, 0, |j.a| - i
  {
    if i < |j.a| {
      HeadTail(j.a, i);
      FromToRaw(j.a[i]);
      FromToItems(j, i + 1);
    }
  }

  lemma ConsKeys(k: Str, ks: seq<Str>, m: map<Str, J>)
    requires k in m && forall l :: l in ks ==> l in m
    ensures map[k := m[k]] + (map l | l in ks :: m[l]) == map l | l in [k] + ks :: m[l]
  {
    forall l
      ensures l in [k] + ks <==> l == k || l in ks
    {
    }
  }

  lemma {:induction false} FromToFields(j: J, ks: seq<Str>)
    requires j.JObj? && Unpaired(j) && forall k :: k in ks ==> k in j.m
    ensures FromFields(FieldsFor(j, ks)) == map k | k in ks :: j.m[k]
    decreases j, 0, |ks|
  {
    if ks != [] {
      var k := ks[0];
      assert k in j.m;
      FromToRaw(j.m[k]);
      JoinUnits(k);
      FromToFields(j, ks[1..]);
      ConsKeys(k, ks[1..], j.m);
      assert ks == [k] + ks[1..];
    }
  }

  /** What json.loads makes of the text of `j`. */
  function AsRead(j: J): J { FromRaw(ToRaw(j)) }

  /** Whatever is read has no surrogate pair in any string. */
  lemma {:induction false} ReadUnpaired(r: Raw)
    ensures Unpaired(FromRaw(r))
  {
    match r
    case RStr(u) => JoinNoPair(u);
    case RArr(l) => ReadUnpairedItems(l);
    case RObj(f) => ReadUnpairedFields(f);
    case _ =>
  }

  lemma {:induction false} ReadUnpairedItems(l: Items)
    ensures Unpaired(JArr(FromItems(l)))
  {
    if l.ICons? {
      ReadUnpaired(l.head);
      ReadUnpairedItems(l.tail);
    }
  }

  lemma {:induction false} ReadUnpairedFields(f: Fields)
    ensures Unpaired(JObj(FromFields(f)))
  {
    if f.FCons? {
      JoinNoPair(f.key);
      ReadUnpaired(f.val);
      ReadUnpairedFields(f.rest);
    }
  }

  // ---------------------------------------------------------------- basic-plane values

  predicate NoSurrogates(u: seq<codeunit>) { forall i :: 0 <= i < |u| ==> !IsSurrogate(u[i]) }

  predicate PlainRaw(r: Raw)
  {
    match r
    case RStr(u) => NoSurrogates(u)
    case RArr(items) => PlainItems(items)
    case RObj(fields) => PlainFields(fields)
    case _ => true
  }

  predicate PlainItems(l: Items) { l.ICons? ==> PlainRaw(l.head) && PlainItems(l.tail) }

  predicate PlainFields(f: Fields) { f.FCons? ==> NoSurrogates(f.key) && PlainRaw(f.val) && PlainFields(f.rest) }

  lemma {:induction false} NoSurrogatesScalar(s: Str)
    requires NoSurrogates(Units(s))
    ensures ScalarStr(s)
  {
    if s != [] {
      assert Units(s)[0] == UnitsOf(s[0])[0] && Units(s)[|UnitsOf(s[0])|..] == Units(s[1..]);
      NoSurrogatesScalar(s[1..]);
      assert s == [s[0]] + s[1..];
    }
  }

  lemma {:induction false} PlainUnpaired(j: J)
    requires PlainRaw(ToRaw(j))
    ensures Unpaired(j)
    decreases j, 1, 0
  {
    match j
    case JStr(s) => NoSurrogatesScalar(s);
    case JArr(a) => PlainUnpairedItems(j, 0);
    case JObj(m) => PlainUnpairedFields(j, SortedKeys(m.Keys));
    case _ =>
  }

  lemma {:induction false} PlainUnpairedItems(j: J, i: nat)
    requires j.JArr? && i <= |j.a| && PlainItems(ItemsFrom(j, i))
    ensures forall k :: i <= k < |j.a| ==> Unpaired(j.a[k])
    decreases j, 0, |j.a| - i
  {
    if i < |j.a| {
      PlainUnpaired(j.a[i]);
      PlainUnpairedItems(j, i + 1);
    }
  }

  lemma {:induction false} PlainUnpairedFields(j: J, ks: seq<Str>)
    requires j.JObj? && (forall k :: k in ks ==> k in j.m) && PlainFields(FieldsFor(j, ks))
    ensures forall k :: k in ks ==> NoPair(k) && Unpaired(j.m[k])
    decreases j, 0, |ks|
  {
    if ks != [] {
      assert ks[0] in j.m;
      NoSurrogatesScalar(ks[0]);
      PlainUnpaired(j.m[ks[0]]);
      PlainUnpairedFields(j, ks[1..]);
      assert ks == [ks[0]] + ks[1..];
    }
  }

  /** No other value, lone surrogates included, prints like a value of basic-plane strings. */
  lemma PlainIsUnique(v: J, w: J)
    requires PlainRaw(ToRaw(w)) && ToRaw(v) == ToRaw(w)
    ensures v == w
  {
    PlainUnpaired(v);
    PlainUnpaired(w);
    FromToRaw(v);
    FromToRaw(w);
  }

  lemma {:induction false} PlainStrUnits(s: Str)
    requires PlainStr(s)
    ensures NoSurrogates(Units(s))
  {
    if s != [] {
      PlainStrUnits(s[1..]);
    }
  }

  /** An object whose keys and values are basic-plane strings. */
  lemma {:induction false} PlainStringFields(j: J, ks: seq<Str>)
    requires j.JObj? && forall k :: k in ks ==> k in j.m
    requires forall k :: k in j.m ==> PlainStr(k) && j.m[k].JStr? && PlainStr(j.m[k].s)
    ensures PlainFields(FieldsFor(j, ks))
  {
    if ks != [] {
      assert ks[0] in j.m;
      PlainStrUnits(ks[0]);
      PlainStrUnits(j.m[ks[0]].s);
      PlainStringFields(j, ks[1..]);
    }
  }

  // ---------------------------------------------------------------- trees to text

  function FromHex(b: int): (r: Option<int>)
    ensures r.Some? ==> 0 <= r.value < 16
  {
    if 48 <= b <= 57 then Some(b - 48)
    else if 97 <= b <= 102 then Some(b - 87)
    else if 65 <= b <= 70 then Some(b - 55)
    else None
  }

  function Escape(u: codeunit): (r: Bytes)
    ensures r != [] && r[0] != 34
  {
    if u == 34 || u == 92 then [92, u]
    else if u == 10 then [92, 110]
    else if u == 13 then [92, 114]
    else if u == 9 then [92, 116]
    else if u == 12 then [92, 102]
    else if u == 8 then [92, 98]
    else if 32 <= u < 127 then [u]
    else [92, 117, HexDigit(u / 4096), HexDigit(u / 256 % 16), HexDigit(u / 16 % 16), HexDigit(u % 16)]
  }

  /** The two-character escapes, of a quote, a backslash, backspace, tab, newline, form feed and return. */
  lemma ShortEscapes()
    ensures Escape(34) == [92, 34] && Escape(92) == [92, 92] && Escape(8) == [92, 98] && Escape(9) == [92, 116]
    ensures Escape(10) == [92, 110] && Escape(12) == [92, 102] && Escape(13) == [92, 114]
  {
  }

  /** Other printable ASCII stands for itself; 1F, 7F, E9 and D83D are printed as four hexadecimal digits in lower case. */
  lemma OtherEscapes()
    ensures forall u: codeunit :: 32 <= u < 127 && u !in {34, 92} ==> Escape(u) == [u]
    ensures Escape(0x1F) == [92, 117, 48, 48, 49, 102] && Escape(0x7F) == [92, 117, 48, 48, 55, 102]
    ensures Escape(0xE9) == [92, 117, 48, 48, 101, 57] && Escape(0xD83D) == [92, 117, 100, 56, 51, 100]
  {
  }

  function EscapeAll(u: seq<codeunit>): Bytes
  {
    if u == [] then [] else Escape(u[0]) + EscapeAll(u[1..])
  }

  function Quote(u: seq<codeunit>): Bytes { [34] + EscapeAll(u) + [34] }

  function PrintRaw(v: Raw): (r: Bytes)
    ensures r != []
  {
    match v
    case RNull => Asc("null")
    case RBool(b) => if b then Asc("true") else Asc("false")
    case RInt(n) => Decimal(n)
    case RFloat(t) => t
    case RStr(u) => Quote(u)
    case RArr(items) => [91] + PrintItems(items, true)
    case RObj(fields) => [123] + PrintFields(fields, true)
  }

  function PrintItems(l: Items, first: bool): Bytes
  {
    match l
    case INil => [93]
    case ICons(h, t) => (if first then [] else [44]) + PrintRaw(h) + PrintItems(t, false)
  }

  function PrintFields(f: Fields, first: bool): Bytes
  {
    match f
    case FNil => [125]
    case FCons(k, v, t) => (if first then [] else [44]) + Quote(k) + [58] + PrintRaw(v) + PrintFields(t, false)
  }

  // ---------------------------------------------------------------- text to trees

  function Unescape(b: Bytes): (r: Option<(codeunit, Bytes)>)
    ensures r.Some? ==> |r.value.1| < |b|
  {
    if b == [] || b[0] == 34 || b[0] < 32 || b[0] >= 128 then None
    else if b[0] != 92 then Some((b[0], b[1..]))
    else if |b| < 2 then None
    else if b[1] == 34 || b[1] == 92 || b[1] == 47 then Some((b[1], b[2..]))
    else if b[1] == 110 then Some((10, b[2..]))
    else if b[1] == 114 then Some((13, b[2..]))
    else if b[1] == 116 then Some((9, b[2..]))
    else if b[1] == 102 then Some((12, b[2..]))
    else if b[1] == 98 then Some((8, b[2..]))
    else if b[1] == 117 && |b| >= 6 then
      var h3 :- FromHex(b[2]);
      var h2 :- FromHex(b[3]);
      var h1 :- FromHex(b[4]);
      var h0 :- FromHex(b[5]);
      Some((h3 * 4096 + h2 * 256 + h1 * 16 + h0, b[6..]))
    else None
  }

  /** Reads up to and including the closing quote. */
  function TakeString(b: Bytes): (r: Option<(seq<codeunit>, Bytes)>)
    ensures r.Some? ==> |r.value.1| < |b|
    decreases |b|
  {
    if b != [] && b[0] == 34 then Some(([], b[1..]))
    else
      var (u, b1) :- Unescape(b);
      var (us, b2) :- TakeString(b1);
      Some(([u] + us, b2))
  }

  /** The longest run of digits; a leading zero stands alone. */
  function DigitRun(b: Bytes): (n: nat)
    ensures n <= |b| && AllDigits(b[..n])
    decreases |b|
  {
    if b == [] || !IsDigit(b[0]) then 0
    else if b[0] == 48 then 1
    else
      var n := DigitRun'(b[1..]);
      assert b[..1 + n] == [b[0]] + b[1..][..n];
      1 + n
  }

  function DigitRun'(b: Bytes): (n: nat)
    ensures n <= |b| && AllDigits(b[..n])
    ensures n < |b| ==> !IsDigit(b[n])
  {
    if b == [] || !IsDigit(b[0]) then 0
    else
      var n := DigitRun'(b[1..]);
      assert b[..1 + n] == [b[0]] + b[1..][..n];
      1 + n
  }

  function TakeInt(b: Bytes): (r: Option<(int, Bytes)>)
    ensures r.Some? ==> |r.value.1| < |b|
  {
    var neg := b != [] && b[0] == 45;
    var d := if neg then b[1..] else b;
    var n := DigitRun(d);
    if n == 0 then None
    else
      var a: int := FromDigits(d[..n]);
      Some((if neg then -a else a, d[n..]))
  }

  /** The longest run of bytes that numbers are made of. */
  function TokenRun(b: Bytes): (n: nat)
    ensures n <= |b|
  {
    if b == [] || !IsTokenChar(b[0]) then 0 else 1 + TokenRun(b[1..])
  }

  /** An integer, or the text of a float. */
  function TakeNumber(b: Bytes): (r: Option<(Raw, Bytes)>)
    ensures r.Some? ==> |r.value.1| < |b|
  {
    var t, rest := b[..TokenRun(b)], b[TokenRun(b)..];
    var n := TakeInt(t);
    if n.Some? && n.value.1 == [] then Some((RInt(n.value.0), rest))
    else if IsFloatText(t) then Some((RFloat(t), rest))
    else None
  }

  function ParseRaw(b: Bytes): (r: Option<(Raw, Bytes)>)
    ensures r.Some? ==> |r.value.1| < |b|
    decreases |b|, 0
  {
    if b == [] then None
    else if b[0] == 110 then if Asc("null") <= b then Some((RNull, b[4..])) else None
    else if b[0] == 116 then if Asc("true") <= b then Some((RBool(true), b[4..])) else None
    else if b[0] == 102 then if Asc("false") <= b then Some((RBool(false), b[5..])) else None
    else if b[0] == 34 then
      var (u, r) :- TakeString(b[1..]);
      Some((RStr(u), r))
    else if b[0] == 91 then
      var (l, r) :- ParseItems(b[1..], true);
      Some((RArr(l), r))
    else if b[0] == 123 then
      var (f, r) :- ParseFields(b[1..], true);
      Some((RObj(f), r))
    else
      TakeNumber(b)
  }

  function ParseItems(b: Bytes, first: bool): (r: Option<(Items, Bytes)>)
    ensures r.Some? ==> |r.value.1| < |b|
    decreases |b|, 1
  {
    if b == [] then None
    else if b[0] == 93 then Some((INil, b[1..]))
    else if !first && b[0] != 44 then None
    else
      var (h, b1) :- ParseRaw(if first then b else b[1..]);
      var (t, b2) :- ParseItems(b1, false);
      Some((ICons(h, t), b2))
  }

  function ParseFields(b: Bytes, first: bool): (r: Option<(Fields, Bytes)>)
    ensures r.Some? ==> |r.value.1| < |b|
    decreases |b|, 1
  {
    if b == [] then None
    else if b[0] == 125 then Some((FNil, b[1..]))
    else if !first && b[0] != 44 then None
    else
      var c := if first then b else b[1..];
      if c == [] || c[0] != 34 then None
      else
        var (k, b1) :- TakeString(c[1..]);
        if b1 == [] || b1[0] != 58 then None
        else
          var (v, b2) :- ParseRaw(b1[1..]);
          var (t, b3) :- ParseFields(b2, false);
          Some((FCons(k, v, t), b3))
  }

  // ---------------------------------------------------------------- the reader undoes the printer

  lemma Nibble(n: nat, q: nat)
    requires q == n / 16
    ensures n == q * 16 + n % 16
  {
  }

  lemma NibblesOf(u: codeunit)
    ensures u / 4096 * 4096 + u / 256 % 16 * 256 + u / 16 % 16 * 16 + u % 16 == u
  {
    Nibble(u, u / 16);
    Nibble(u / 16, u / 256);
    Nibble(u / 256, u / 4096);
  }

  lemma HexDigitRead(n: int)
    requires 0 <= n < 16
    ensures FromHex(HexDigit(n)) == Some(n)
  {
  }

  lemma UnescapeHex(b: Bytes, u: codeunit, r: Bytes)
    requires b == [92, 117, HexDigit(u / 4096), HexDigit(u / 256 % 16), HexDigit(u / 16 % 16), HexDigit(u % 16)] + r
    ensures Unescape(b) == Some((u, r))
  {
    NibblesOf(u);
    HexDigitRead(u / 4096);
    HexDigitRead(u / 256 % 16);
    HexDigitRead(u / 16 % 16);
    HexDigitRead(u % 16);
    assert b[6..] == r;
    assert b[0] == 92 && b[1] == 117 && b[2] == HexDigit(u / 4096) && b[3] == HexDigit(u / 256 % 16);
    assert b[4] == HexDigit(u / 16 % 16) && b[5] == HexDigit(u % 16);
  }

  lemma UnescapeEscape(u: codeunit, r: Bytes)
    ensures Unescape(Escape(u) + r) == Some((u, r))
  {
    var b := Escape(u) + r;
    if |Escape(u)| == 6 {
      UnescapeHex(b, u, r);
    } else if |Escape(u)| == 2 {
      assert b[2..] == r;
    } else {
      assert b[1..] == r;
    }
  }

  lemma TakeStringStep(b: Bytes, u: codeunit, us: seq<codeunit>, b1: Bytes, r: Bytes)
    requires b != [] && b[0] != 34 && Unescape(b) == Some((u, b1)) && TakeString(b1) == Some((us, r))
    ensures TakeString(b) == Some(([u] + us, r))
  {
  }

  lemma {:induction false} TakeStringEscape(u: seq<codeunit>, r: Bytes)
    ensures TakeString(EscapeAll(u) + [34] + r) == Some((u, r))
  {
    var b := EscapeAll(u) + [34] + r;
    if u == [] {
      assert b[1..] == r;
    } else {
      var tail := EscapeAll(u[1..]) + [34] + r;
      UnescapeEscape(u[0], tail);
      TakeStringEscape(u[1..], r);
      Assoc(Escape(u[0]), EscapeAll(u[1..]), [34]);
      Assoc(Escape(u[0]), EscapeAll(u[1..]) + [34], r);
      TakeStringStep(b, u[0], u[1..], tail, r);
      assert u == [u[0]] + u[1..];
    }
  }

  predicate NoTokenFirst(r: Bytes) { r == [] || !IsTokenChar(r[0]) }

  lemma {:induction false} DigitRunAppend(d: Bytes, r: Bytes)
    requires AllDigits(d) && NoTokenFirst(r)
    ensures DigitRun'(d + r) == |d|
  {
    if d == [] {
      assert d + r == r;
    } else {
      assert (d + r)[1..] == d[1..] + r;
      DigitRunAppend(d[1..], r);
    }
  }

  lemma DigitRunDigits(a: nat, r: Bytes)
    requires NoTokenFirst(r)
    ensures DigitRun(Digits(a) + r) == |Digits(a)|
  {
    var d := Digits(a);
    assert (d + r)[1..] == d[1..] + r;
    DigitRunAppend(d[1..], r);
  }

  lemma TakeIntDecimal(n: int, r: Bytes)
    requires NoTokenFirst(r)
    ensures TakeInt(Decimal(n) + r) == Some((n, r))
  {
    var a: nat := if n < 0 then -n else n;
    var d := Digits(a);
    DigitsRoundTrip(a);
    DigitRunDigits(a, r);
    assert n < 0 ==> ([45] + d + r)[1..] == d + r;
    assert (d + r)[..|d|] == d && (d + r)[|d|..] == r;
  }

  lemma {:induction false} TokenRunAppend(t: Bytes, r: Bytes)
    requires IsToken(t) && NoTokenFirst(r)
    ensures TokenRun(t + r) == |t|
  {
    if t == [] {
      assert t + r == r;
    } else {
      assert (t + r)[1..] == t[1..] + r;
      TokenRunAppend(t[1..], r);
    }
  }

  lemma TakeNumberToken(t: Bytes, r: Bytes)
    requires IsToken(t) && NoTokenFirst(r)
    ensures (t + r)[..TokenRun(t + r)] == t && (t + r)[TokenRun(t + r)..] == r
  {
    TokenRunAppend(t, r);
  }

  lemma TakeNumberInt(n: int, r: Bytes)
    requires NoTokenFirst(r)
    ensures TakeNumber(Decimal(n) + r) == Some((RInt(n), r))
  {
    var t := Decimal(n);
    assert IsToken(t);
    TakeNumberToken(t, r);
    TakeIntDecimal(n, []);
    assert t + [] == t;
  }

  /** A float's text is no integer's. */
  lemma FloatIsNoInt(t: floattext)
    ensures TakeInt(t) == None || TakeInt(t).value.1 != []
  {
    var neg := t[0] == 45;
    var d := if neg then t[1..] else t;
    var i :| 0 <= i < |t| && !IsDigit(t[i]) && !(i == 0 && t[i] == 45);
    assert t[i] == d[if neg then i - 1 else i];
  }

  lemma TakeNumberFloat(t: floattext, r: Bytes)
    requires NoTokenFirst(r)
    ensures TakeNumber(t + r) == Some((RFloat(t), r))
  {
    TakeNumberToken(t, r);
    FloatIsNoInt(t);
  }

  lemma ParseNumber(b: Bytes)
    requires b != [] && (IsDigit(b[0]) || b[0] in {45, 73, 78})
    ensures ParseRaw(b) == TakeNumber(b)
  {
    hide TakeNumber, TakeString, ParseItems, ParseFields, FromRaw, ToRaw;
  }

  lemma ParseWords(r: Bytes)
    ensures ParseRaw(Asc("null") + r) == Some((RNull, r))
    ensures ParseRaw(Asc("true") + r) == Some((RBool(true), r))
    ensures ParseRaw(Asc("false") + r) == Some((RBool(false), r))
  {
    assert (Asc("null") + r)[4..] == r && (Asc("true") + r)[4..] == r && (Asc("false") + r)[5..] == r;
  }

  lemma Lead(x: byte, s: Bytes, r: Bytes)
    ensures ([x] + s + r)[0] == x && ([x] + s + r)[1..] == s + r
  {
  }

  lemma ParseQuoted(b: Bytes, u: seq<codeunit>, r: Bytes)
    requires b != [] && b[0] == 34 && TakeString(b[1..]) == Some((u, r))
    ensures ParseRaw(b) == Some((RStr(u), r))
  {
  }

  lemma ParseArray(b: Bytes, l: Items, r: Bytes)
    requires b != [] && b[0] == 91 && ParseItems(b[1..], true) == Some((l, r))
    ensures ParseRaw(b) == Some((RArr(l), r))
  {
  }

  lemma ParseObject(b: Bytes, f: Fields, r: Bytes)
    requires b != [] && b[0] == 123 && ParseFields(b[1..], true) == Some((f, r))
    ensures ParseRaw(b) == Some((RObj(f), r))
  {
  }

  lemma {:induction false} ParsePrint(v: Raw, r: Bytes)
    requires NoTokenFirst(r)
    ensures ParseRaw(PrintRaw(v) + r) == Some((v, r))
  {
    match v
    case RNull => ParseWords(r);
    case RBool(_) => ParseWords(r);
    case RInt(n) =>
      TakeNumberInt(n, r);
      assert (Decimal(n) + r)[0] == Decimal(n)[0];
      ParseNumber(Decimal(n) + r);
    case RFloat(t) =>
      TakeNumberFloat(t, r);
      assert (t + r)[0] == t[0];
      ParseNumber(t + r);
    case RStr(u) =>
      TakeStringEscape(u, r);
      Lead(34, EscapeAll(u) + [34], r);
      assert Quote(u) == [34] + (EscapeAll(u) + [34]);
      ParseQuoted(Quote(u) + r, u, r);
    case RArr(l) =>
      ParsePrintItems(l, true, r);
      Lead(91, PrintItems(l, true), r);
      ParseArray(PrintRaw(v) + r, l, r);
    case RObj(f) =>
      ParsePrintFields(f, true, r);
      Lead(123, PrintFields(f, true), r);
      ParseObject(PrintRaw(v) + r, f, r);
  }

  lemma PrintRawFirst(v: Raw)
    ensures PrintRaw(v)[0] != 93
  {
  }

  lemma PrintItemsNoDigit(l: Items, r: Bytes)
    ensures NoTokenFirst(PrintItems(l, false) + r)
  {
  }

  lemma PrintFieldsNoDigit(f: Fields, r: Bytes)
    ensures NoTokenFirst(PrintFields(f, false) + r)
  {
  }

  lemma {:induction false} ParsePrintItems(l: Items, first: bool, r: Bytes)
    ensures ParseItems(PrintItems(l, first) + r, first) == Some((l, r))
  {
    hide PrintRaw, ParseRaw;
    var b := PrintItems(l, first) + r;
    match l
    case INil => assert b[1..] == r;
    case ICons(h, t) =>
      var tail := PrintItems(t, false) + r;
      PrintItemsNoDigit(t, r);
      assert b == (if first then [] else [44]) + (PrintRaw(h) + tail);
      assert (if first then b else b[1..]) == PrintRaw(h) + tail;
      PrintRawFirst(h);
      ParsePrint(h, tail);
      ParsePrintItems(t, false, r);
  }

  lemma {:induction false} ParsePrintFields(f: Fields, first: bool, r: Bytes)
    ensures ParseFields(PrintFields(f, first) + r, first) == Some((f, r))
  {
    var b := PrintFields(f, first) + r;
    match f
    case FNil => assert b[1..] == r;
    case FCons(k, v, t) =>
      var tail := PrintFields(t, false) + r;
      PrintFieldsNoDigit(t, r);
      ParsePrint(v, tail);
      ParsePrintFields(t, false, r);
      ParseField(k, v, t, first, r);
  }

  /** One `"name":value` and then the rest of the object. */
  lemma ParseField(k: seq<codeunit>, v: Raw, t: Fields, first: bool, r: Bytes)
    requires ParseRaw(PrintRaw(v) + (PrintFields(t, false) + r)) == Some((v, PrintFields(t, false) + r))
    requires ParseFields(PrintFields(t, false) + r, false) == Some((t, r))
    ensures ParseFields(PrintFields(FCons(k, v, t), first) + r, first) == Some((FCons(k, v, t), r))
  {
    var tail := PrintFields(t, false) + r;
    var colon := [58] + (PrintRaw(v) + tail);
    var c := [34] + (EscapeAll(k) + [34] + colon);
    FieldText(EscapeAll(k), PrintRaw(v), PrintFields(t, false), r, if first then [] else [44]);
    TakeStringEscape(k, colon);
    ParseFieldAt(c, k, colon, v, tail, t, r, first);
  }

  lemma FieldText(k: Bytes, v: Bytes, t: Bytes, r: Bytes, comma: Bytes)
    ensures comma + ([34] + k + [34]) + [58] + v + t + r == comma + ([34] + (k + [34] + ([58] + (v + (t + r)))))
  {
  }

  lemma ParseFieldAt(c: Bytes, k: seq<codeunit>, colon: Bytes, v: Raw, tail: Bytes, t: Fields, r: Bytes, first: bool)
    requires c != [] && c[0] == 34 && TakeString(c[1..]) == Some((k, colon))
    requires colon != [] && colon[0] == 58 && ParseRaw(colon[1..]) == Some((v, tail))
    requires ParseFields(tail, false) == Some((t, r))
    ensures ParseFields((if first then [] else [44]) + c, first) == Some((FCons(k, v, t), r))
  {
    var b := (if first then [] else [44]) + c;
    assert (if first then b else b[1..]) == c;
  }

  // ---------------------------------------------------------------- dumps and loads

  function Dumps(j: J): Bytes { PrintRaw(ToRaw(j)) }

  function Loads(b: Bytes): Option<J>
  {
    var (v, r) :- ParseRaw(b);
    if r == [] then Some(FromRaw(v)) else None
  }

  lemma LoadsGives(j: J)
    ensures Loads(Dumps(j)) == Some(AsRead(j))
  {
    ParsePrint(ToRaw(j), []);
    assert Dumps(j) + [] == Dumps(j);
  }

  lemma ReadsBack(j: J)
    ensures AsRead(j) == j <==> Unpaired(j)
  {
    ReadUnpaired(ToRaw(j));
    if Unpaired(j) { FromToRaw(j); }
  }

  /** `json.loads(json.dumps(j)) == j` exactly when no string in `j` has a lone high surrogate right before a lone
      low one. */
  lemma LoadsDumps(j: J)
    ensures Loads(Dumps(j)) == Some(j) <==> Unpaired(j)
  {
    LoadsGives(j);
    ReadsBack(j);
  }

  /** The text is a prefix code for what it depends on, whatever follows it. */
  lemma DumpsDecides(j: J, k: J, r: Bytes, s: Bytes)
    requires NoTokenFirst(r) && NoTokenFirst(s)
    requires Dumps(j) + r == Dumps(k) + s
    ensures ToRaw(j) == ToRaw(k) && r == s
  {
    ParsePrint(ToRaw(j), r);
    ParsePrint(ToRaw(k), s);
  }

  lemma PrintRawInjective(v: Raw, w: Raw)
    requires PrintRaw(v) == PrintRaw(w)
    ensures v == w
  {
    assert PrintRaw(v) + [] == PrintRaw(v) && PrintRaw(w) + [] == PrintRaw(w);
    ParsePrint(v, []);
    ParsePrint(w, []);
  }

  /** Two values without surrogate pairs print alike exactly when they are the same value. */
  lemma DumpsInjective(j: J, k: J)
    requires Unpaired(j) && Unpaired(k)
    ensures Dumps(j) == Dumps(k) <==> j == k
  {
    if Dumps(j) == Dumps(k) {
      DumpsDecides(j, k, [], []);
      FromToRaw(j);
      FromToRaw(k);
    }
  }

  /** On arbitrary Python strings, equal text means equal code units, and nothing more. */
  lemma DumpsStrings(s: Str, t: Str)
    ensures Dumps(JStr(s)) == Dumps(JStr(t)) <==> Units(s) == Units(t)
  {
    if Dumps(JStr(s)) == Dumps(JStr(t)) {
      DumpsDecides(JStr(s), JStr(t), [], []);
    }
  }

  /** Lone surrogates: a high and a low one print like the single astral character they would form. */
  lemma LoneSurrogatesCollide()
    ensures var pair: Str, astral: Str := [0xD83D, 0xDE00], [0x1F600];
            pair != astral && Dumps(JStr(pair)) == Dumps(JStr(astral))
  {
    var pair: Str, astral: Str := [0xD83D, 0xDE00], [0x1F600];
    assert Units(pair) == [0xD83D] + Units(pair[1..]) && Units(pair[1..]) == [0xDE00] + Units([]);
    assert Units(astral) == UnitsOf(0x1F600) + Units([]) == [0xD83D, 0xDE00];
  }
}
