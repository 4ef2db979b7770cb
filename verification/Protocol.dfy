/** protocol.py: signed envelopes, the manifest text, and length-prefixed frames on a byte stream. */
module Protocol {
  import opened Bytes
  import opened Text
  import opened Json
  import opened CryptoUtils
  import opened Base64
  import opened Rereading

  predicate IsSignedType(t: Str)
  {
    t in {Asc("HELLO"), Asc("CONTACT_REQUEST"), Asc("CONTACT_ACCEPT"), Asc("HANDSHAKE_INIT"),
          Asc("HANDSHAKE_RESP"), Asc("KEY_ROTATE_NOTICE"), Asc("TRANSFER_START")}
  }

  /** `env.get(name)` on what recv_frame returned; None also when it is not an object. */
  function Field(env: J, name: Str): Option<J>
  {
    if env.JObj? && name in env.m then Some(env.m[name]) else None
  }

  function TextField(env: J, name: Str): Option<Str>
  {
    match Field(env, name)
    case Some(JStr(s)) => Some(s)
    case _ => None
  }

  predicate HasType(env: J, typ: Str) { TextField(env, Asc("type")) == Some(typ) }

  // ---------------------------------------------------------------- canonical texts

  /** The object whose text is signed: fixed field order, not sorted. */
  function SignedTree(typ: Raw, id: Raw, from: Raw, payload: Raw): Raw
  {
    RObj(FCons(Asc("v"), RInt(1), FCons(Asc("type"), typ, FCons(Asc("id"), id,
         FCons(Asc("from"), from, FCons(Asc("payload"), payload, FNil))))))
  }

  /** canonical_for_signing */
  function CanonicalEnvelope(typ: Str, id: Str, from: Str, payload: J): Bytes
  {
    PrintRaw(SignedTree(RStr(Units(typ)), RStr(Units(id)), RStr(Units(from)), ToRaw(payload)))
  }

  /** The six manifest fields, as whatever JSON values the caller passes. */
  datatype Manifest = Manifest(fileId: J, filename: J, owner: J, sha256Hex: J, size: J, timestamp: J)

  function ManifestDict(f: Manifest): map<Str, J>
  {
    map[Asc("file_id") := f.fileId, Asc("filename") := f.filename, Asc("original_owner") := f.owner,
        Asc("sha256_hex") := f.sha256Hex, Asc("size") := f.size, Asc("timestamp") := f.timestamp]
  }

  /** canonical_manifest */
  function CanonicalManifest(f: Manifest): Bytes { Dumps(JObj(ManifestDict(f))) }

  lemma SignedTreeDecides(t: Raw, i: Raw, f: Raw, p: Raw, t': Raw, i': Raw, f': Raw, p': Raw)
    requires PrintRaw(SignedTree(t, i, f, p)) == PrintRaw(SignedTree(t', i', f', p'))
    ensures t == t' && i == i' && f == f' && p == p'
  {
    PrintRawInjective(SignedTree(t, i, f, p), SignedTree(t', i', f', p'));
  }

  lemma TypeAndIdDecided(t: Str, i: Str, f: Str, p: J, t': Str, i': Str, f': Str, p': J)
    requires CanonicalEnvelope(t, i, f, p) == CanonicalEnvelope(t', i', f', p')
    ensures Units(t) == Units(t') && Units(i) == Units(i')
  {
    SignedTreeDecides(RStr(Units(t)), RStr(Units(i)), RStr(Units(f)), ToRaw(p),
                      RStr(Units(t')), RStr(Units(i')), RStr(Units(f')), ToRaw(p'));
  }

  lemma SenderAndPayloadDecided(t: Str, i: Str, f: Str, p: J, t': Str, i': Str, f': Str, p': J)
    requires CanonicalEnvelope(t, i, f, p) == CanonicalEnvelope(t', i', f', p')
    ensures Units(f) == Units(f') && ToRaw(p) == ToRaw(p')
  {
    SignedTreeDecides(RStr(Units(t)), RStr(Units(i)), RStr(Units(f)), ToRaw(p),
                      RStr(Units(t')), RStr(Units(i')), RStr(Units(f')), ToRaw(p'));
  }

  /** The signed text of an envelope decides type, id and sender as text, and the payload. */
  lemma CanonicalEnvelopeDecides(t: Str, i: Str, f: Str, p: J, t': Str, i': Str, f': Str, p': J)
    requires CanonicalEnvelope(t, i, f, p) == CanonicalEnvelope(t', i', f', p')
    ensures Units(t) == Units(t') && Units(i) == Units(i') && Units(f) == Units(f') && ToRaw(p) == ToRaw(p')
  {
    TypeAndIdDecided(t, i, f, p, t', i', f', p');
    SenderAndPayloadDecided(t, i, f, p, t', i', f', p');
  }

  lemma {:induction false} EscapePlain(u: Bytes)
    requires forall i :: 0 <= i < |u| ==> 97 <= u[i] <= 122
    ensures EscapeAll(u) == u
  {
    if u != [] {
      EscapePlain(u[1..]);
      assert u == [u[0]] + u[1..];
    }
  }

  /** One further field of an object, with a plain name. */
  lemma PrintField(name: Bytes, v: Raw, t: Fields)
    requires forall i :: 0 <= i < |name| ==> 97 <= name[i] <= 122
    ensures PrintFields(FCons(name, v, t), false) == ([44, 34] + name + [34, 58]) + (PrintRaw(v) + PrintFields(t, false))
  {
    EscapePlain(name);
    CommaText(name, PrintRaw(v), PrintFields(t, false));
  }

  lemma CommaText(name: Bytes, v: Bytes, t: Bytes)
    ensures [44] + ([34] + name + [34]) + [58] + v + t == ([44, 34] + name + [34, 58]) + (v + t)
  {
  }

  lemma FieldTags()
    ensures [44, 34] + Asc("type") + [34, 58] == Asc(",\"type\":") && [44, 34] + Asc("id") + [34, 58] == Asc(",\"id\":")
    ensures [44, 34] + Asc("from") + [34, 58] == Asc(",\"from\":")
    ensures [44, 34] + Asc("payload") + [34, 58] == Asc(",\"payload\":")
    ensures Quote(Asc("v")) == Asc("\"v\"") && Decimal(1) == Asc("1")
  {
    EscapePlain(Asc("v"));
  }

  /** The pieces the source concatenates are the pieces the signed object prints. */
  lemma SignedTreeText(v: Raw, t: Fields)
    ensures PrintFields(FCons(Asc("type"), v, t), false) == Asc(",\"type\":") + (PrintRaw(v) + PrintFields(t, false))
    ensures PrintFields(FCons(Asc("id"), v, t), false) == Asc(",\"id\":") + (PrintRaw(v) + PrintFields(t, false))
    ensures PrintFields(FCons(Asc("from"), v, t), false) == Asc(",\"from\":") + (PrintRaw(v) + PrintFields(t, false))
    ensures PrintFields(FCons(Asc("payload"), v, t), false)
         == Asc(",\"payload\":") + (PrintRaw(v) + PrintFields(t, false))
  {
    FieldTags();
    PrintField(Asc("type"), v, t);
    PrintField(Asc("id"), v, t);
    PrintField(Asc("from"), v, t);
    PrintField(Asc("payload"), v, t);
  }

  /** The whole signed text, piece by piece: five fields in this order, whatever they hold. */
  lemma EnvelopeTextIs(t: Str, i: Str, f: Str, p: J)
    ensures CanonicalEnvelope(t, i, f, p)
         == Asc("{\"v\":1") + (Asc(",\"type\":") + (Dumps(JStr(t)) + (Asc(",\"id\":") + (Dumps(JStr(i))
            + (Asc(",\"from\":") + (Dumps(JStr(f)) + (Asc(",\"payload\":") + (Dumps(p) + Asc("}")))))))))
  {
    hide Escape, Units, Asc;
    var none := PrintFields(FNil, false);
    var fp := FCons(Asc("payload"), ToRaw(p), FNil);
    var ff := FCons(Asc("from"), RStr(Units(f)), fp);
    var fi := FCons(Asc("id"), RStr(Units(i)), ff);
    var ft := FCons(Asc("type"), RStr(Units(t)), fi);
    SignedTreeText(ToRaw(p), FNil);
    SignedTreeText(RStr(Units(f)), fp);
    SignedTreeText(RStr(Units(i)), ff);
    SignedTreeText(RStr(Units(t)), fi);
    ObjectText(ft);
    assert none == Asc("}") by { Braces(); }
  }

  lemma Braces()
    ensures Asc("}") == [125] && Asc("{\"v\":1") == [123, 34, 118, 34, 58, 49]
    ensures Quote(Asc("v")) == [34, 118, 34] && Decimal(1) == [49]
  {
    EscapePlain(Asc("v"));
  }

  lemma ObjectText(ft: Fields)
    ensures PrintRaw(RObj(FCons(Asc("v"), RInt(1), ft))) == Asc("{\"v\":1") + PrintFields(ft, false)
  {
    hide Quote, Asc;
    Braces();
    var rest := PrintFields(ft, false);
    assert [123] + ([34, 118, 34] + [58] + [49] + rest) == [123, 34, 118, 34, 58, 49] + rest;
  }

  /** Envelopes over scalar strings: one signed text, one (type, id, sender, payload). */
  lemma CanonicalEnvelopeInjective(t: Str, i: Str, f: Str, p: J, t': Str, i': Str, f': Str, p': J)
    requires NoPair(t) && NoPair(i) && NoPair(f) && Unpaired(p)
    requires NoPair(t') && NoPair(i') && NoPair(f') && Unpaired(p')
    ensures CanonicalEnvelope(t, i, f, p) == CanonicalEnvelope(t', i', f', p')
            <==> t == t' && i == i' && f == f' && p == p'
  {
    if CanonicalEnvelope(t, i, f, p) == CanonicalEnvelope(t', i', f', p') {
      CanonicalEnvelopeDecides(t, i, f, p, t', i', f', p');
      JoinUnits(t); JoinUnits(t'); JoinUnits(i); JoinUnits(i'); JoinUnits(f); JoinUnits(f');
      FromToRaw(p); FromToRaw(p');
    }
  }

  lemma {:induction false} FieldsDecide(j: J, k: J, ks: seq<Str>)
    requires j.JObj? && k.JObj? && forall x :: x in ks ==> x in j.m && x in k.m
    requires FieldsFor(j, ks) == FieldsFor(k, ks)
    ensures forall x :: x in ks ==> ToRaw(j.m[x]) == ToRaw(k.m[x])
  {
    if ks != [] {
      FieldsDecide(j, k, ks[1..]);
      assert ks == [ks[0]] + ks[1..];
    }
  }

  /** Two dicts with the same keys and the same text agree on the text of every field. */
  lemma SameKeysDecide(m: map<Str, J>, n: map<Str, J>)
    requires m.Keys == n.Keys && ToRaw(JObj(m)) == ToRaw(JObj(n))
    ensures forall x :: x in m ==> ToRaw(m[x]) == ToRaw(n[x])
  {
    FieldsDecide(JObj(m), JObj(n), SortedKeys(m.Keys));
  }

  ghost predicate SameText(f: Manifest, g: Manifest)
  {
    && ToRaw(f.fileId) == ToRaw(g.fileId) && ToRaw(f.filename) == ToRaw(g.filename)
    && ToRaw(f.owner) == ToRaw(g.owner) && ToRaw(f.sha256Hex) == ToRaw(g.sha256Hex)
    && ToRaw(f.size) == ToRaw(g.size) && ToRaw(f.timestamp) == ToRaw(g.timestamp)
  }

  lemma ManifestFields(f: Manifest)
    ensures var m := ManifestDict(f);
            && Asc("file_id") in m && m[Asc("file_id")] == f.fileId
            && Asc("filename") in m && m[Asc("filename")] == f.filename
            && Asc("original_owner") in m && m[Asc("original_owner")] == f.owner
            && Asc("sha256_hex") in m && m[Asc("sha256_hex")] == f.sha256Hex
            && Asc("size") in m && m[Asc("size")] == f.size
            && Asc("timestamp") in m && m[Asc("timestamp")] == f.timestamp
  {
    AscInjective();
  }

  /** The manifest prints its fields in alphabetical order. */
  lemma ManifestKeyOrder(f: Manifest)
    ensures SortedKeys(ManifestDict(f).Keys) == [Asc("file_id"), Asc("filename"), Asc("original_owner"), Asc("sha256_hex"),
                                                 Asc("size"), Asc("timestamp")]
  {
    hide LessEq;
    var a: Str, b: Str, c: Str := Asc("file_id"), Asc("filename"), Asc("original_owner");
    var d: Str, e: Str, g: Str := Asc("sha256_hex"), Asc("size"), Asc("timestamp");
    assert a[..4] == b[..4] && d[..1] == e[..1];
    assert forall s: Str, t: Str {:trigger s[..0], t[..0]} :: s[..0] == t[..0];
    LessAt(a, b, 4); LessAt(a, c, 0); LessAt(a, d, 0); LessAt(a, e, 0); LessAt(a, g, 0);
    LessAt(b, c, 0); LessAt(b, d, 0); LessAt(b, e, 0); LessAt(b, g, 0);
    LessAt(c, d, 0); LessAt(c, e, 0); LessAt(c, g, 0);
    LessAt(d, e, 1); LessAt(d, g, 0); LessAt(e, g, 0);
    var ks := [a, b, c, d, e, g];
    SortedKeysUnique(ks, ManifestDict(f).Keys);
  }

  lemma {:induction false} EscapeName(u: Bytes)
    requires PlainName(u)
    ensures EscapeAll(u) == u
  {
    if u != [] {
      EscapeName(u[1..]);
      assert u == [u[0]] + u[1..];
    }
  }

  /** A field of the manifest, after the comma if it is not the first. */
  lemma NamedField(name: Bytes, v: Raw, t: Fields, first: bool)
    requires PlainName(name)
    ensures PrintFields(FCons(name, v, t), first)
         == (if first then [] else [44]) + ([34] + name + [34, 58]) + (PrintRaw(v) + PrintFields(t, false))
  {
    EscapeName(name);
    NamedText(if first then [] else [44], name, PrintRaw(v), PrintFields(t, false));
  }

  lemma NamedText(comma: Bytes, name: Bytes, v: Bytes, t: Bytes)
    ensures comma + ([34] + name + [34]) + [58] + v + t == comma + ([34] + name + [34, 58]) + (v + t)
  {
  }

  lemma {:induction false} AsciiUnits(s: Bytes)
    ensures Units(s) == s
  {
    if s != [] {
      AsciiUnits(s[1..]);
      assert s == [s[0]] + s[1..];
    }
  }

  lemma ManifestNames()
    ensures [44] + ([34] + Asc("filename") + [34, 58]) == Asc(",\"filename\":")
    ensures [44] + ([34] + Asc("original_owner") + [34, 58]) == Asc(",\"original_owner\":")
    ensures [44] + ([34] + Asc("sha256_hex") + [34, 58]) == Asc(",\"sha256_hex\":")
  {
  }

  lemma LastNames()
    ensures [44] + ([34] + Asc("size") + [34, 58]) == Asc(",\"size\":")
    ensures [44] + ([34] + Asc("timestamp") + [34, 58]) == Asc(",\"timestamp\":")
  {
  }

  function ManifestTree(f: Manifest): Fields
  {
    FCons(Asc("file_id"), ToRaw(f.fileId), FCons(Asc("filename"), ToRaw(f.filename),
    FCons(Asc("original_owner"), ToRaw(f.owner), FCons(Asc("sha256_hex"), ToRaw(f.sha256Hex),
    FCons(Asc("size"), ToRaw(f.size), FCons(Asc("timestamp"), ToRaw(f.timestamp), FNil))))))
  }

  lemma NextField(j: J, k: Bytes, v: J, ks: seq<Str>)
    requires j.JObj? && k in j.m && j.m[k] == v && forall x :: x in ks ==> x in j.m
    ensures FieldsFor(j, [k] + ks) == FCons(k, ToRaw(v), FieldsFor(j, ks))
  {
    AsciiUnits(k);
    var all: seq<Str> := [k] + ks;
    assert all[1..] == ks;
  }

  lemma ManifestFieldsFor(f: Manifest)
    ensures (forall x :: x in SortedKeys(ManifestDict(f).Keys) ==> x in ManifestDict(f))
    ensures FieldsFor(JObj(ManifestDict(f)), SortedKeys(ManifestDict(f).Keys)) == ManifestTree(f)
  {
    var j := JObj(ManifestDict(f));
    ManifestKeyOrder(f);
    ManifestFields(f);
    hide ManifestDict, SortedKeys, FieldsFor, ToRaw, Asc;
    var a: Str, b: Str, c: Str := Asc("file_id"), Asc("filename"), Asc("original_owner");
    var d: Str, e: Str, g: Str := Asc("sha256_hex"), Asc("size"), Asc("timestamp");
    var none: seq<Str> := [];
    NextField(j, Asc("timestamp"), f.timestamp, none);
    NextField(j, Asc("size"), f.size, [g] + none);
    NextField(j, Asc("sha256_hex"), f.sha256Hex, [e] + ([g] + none));
    NextField(j, Asc("original_owner"), f.owner, [d] + ([e] + ([g] + none)));
    NextField(j, Asc("filename"), f.filename, [c] + ([d] + ([e] + ([g] + none))));
    NextField(j, Asc("file_id"), f.fileId, [b] + ([c] + ([d] + ([e] + ([g] + none)))));
    assert [a] + ([b] + ([c] + ([d] + ([e] + ([g] + none))))) == [a, b, c, d, e, g];
    NoFields(j);
  }

  lemma NoFields(j: J)
    requires j.JObj?
    ensures FieldsFor(j, []) == FNil
  {
  }

  /** The whole manifest text, piece by piece. */
  lemma ManifestTextIs(f: Manifest)
    ensures CanonicalManifest(f)
         == Asc("{\"file_id\":") + (Dumps(f.fileId) + (Asc(",\"filename\":") + (Dumps(f.filename)
            + (Asc(",\"original_owner\":") + (Dumps(f.owner) + (Asc(",\"sha256_hex\":") + (Dumps(f.sha256Hex)
            + (Asc(",\"size\":") + (Dumps(f.size) + (Asc(",\"timestamp\":") + (Dumps(f.timestamp) + Asc("}"))))))))))))
  {
    hide ManifestDict, SortedKeys, FieldsFor, ToRaw, Asc, PrintFields, PrintRaw;
    var j := JObj(ManifestDict(f));
    TextOfObject(j);
    ManifestFieldsFor(f);
    var last := FCons(Asc("size"), ToRaw(f.size), FCons(Asc("timestamp"), ToRaw(f.timestamp), FNil));
    LastFieldsText(ToRaw(f.size), ToRaw(f.timestamp));
    MiddleFieldsText(ToRaw(f.filename), ToRaw(f.owner), ToRaw(f.sha256Hex), last);
    NamesPlain();
    var rest := FCons(Asc("filename"), ToRaw(f.filename), FCons(Asc("original_owner"), ToRaw(f.owner),
                FCons(Asc("sha256_hex"), ToRaw(f.sha256Hex), last)));
    NamedField(Asc("file_id"), ToRaw(f.fileId), rest, true);
    WholeObject(ManifestTree(f));
    OpenBrace(Dumps(f.fileId) + PrintFields(rest, false));
  }

  lemma WholeObject(t: Fields)
    ensures PrintRaw(RObj(t)) == [123] + PrintFields(t, true)
  {
  }

  lemma LastFieldsText(size: Raw, ts: Raw)
    ensures PrintFields(FCons(Asc("size"), size, FCons(Asc("timestamp"), ts, FNil)), false)
         == Asc(",\"size\":") + (PrintRaw(size) + (Asc(",\"timestamp\":") + (PrintRaw(ts) + Asc("}"))))
  {
    LastNames();
    NamesPlain();
    Braces();
    FieldsEnd();
    hide Asc, PrintFields, PrintRaw, PlainName;
    NamedField(Asc("timestamp"), ts, FNil, false);
    NamedField(Asc("size"), size, FCons(Asc("timestamp"), ts, FNil), false);
  }

  lemma MiddleFieldsText(name: Raw, owner: Raw, sha: Raw, last: Fields)
    ensures PrintFields(FCons(Asc("filename"), name, FCons(Asc("original_owner"), owner,
                        FCons(Asc("sha256_hex"), sha, last))), false)
         == Asc(",\"filename\":") + (PrintRaw(name) + (Asc(",\"original_owner\":") + (PrintRaw(owner)
            + (Asc(",\"sha256_hex\":") + (PrintRaw(sha) + PrintFields(last, false))))))
  {
    ManifestNames();
    NamesPlain();
    hide Asc, PrintFields, PrintRaw, PlainName;
    var t := FCons(Asc("sha256_hex"), sha, last);
    NamedField(Asc("sha256_hex"), sha, last, false);
    NamedField(Asc("original_owner"), owner, t, false);
    NamedField(Asc("filename"), name, FCons(Asc("original_owner"), owner, t), false);
  }

  lemma FieldsEnd()
    ensures PrintFields(FNil, false) == [125]
  {
  }

  lemma OpenBrace(rest: Bytes)
    ensures [123] + ([] + ([34] + Asc("file_id") + [34, 58]) + rest) == Asc("{\"file_id\":") + rest
  {
    assert [123] + ([34] + Asc("file_id") + [34, 58]) == Asc("{\"file_id\":");
  }

  predicate PlainName(u: Bytes) { forall i :: 0 <= i < |u| ==> 97 <= u[i] <= 122 || u[i] == 95 || 48 <= u[i] <= 57 }

  lemma NamesPlain()
    ensures PlainName(Asc("file_id")) && PlainName(Asc("filename")) && PlainName(Asc("original_owner"))
    ensures PlainName(Asc("sha256_hex")) && PlainName(Asc("size")) && PlainName(Asc("timestamp"))
  {
  }

  /** Equal manifest texts agree on all six fields. */
  lemma ManifestDecides(f: Manifest, g: Manifest)
    requires CanonicalManifest(f) == CanonicalManifest(g)
    ensures SameText(f, g)
  {
    var m, n := ManifestDict(f), ManifestDict(g);
    DumpsDecides(JObj(m), JObj(n), [], []);
    SameKeysDecide(m, n);
    ManifestFields(f);
    ManifestFields(g);
  }

  // ---------------------------------------------------------------- signing contexts

  /** The printed object begins with the first letter of one of its keys. */
  lemma ObjectStart(m: map<Str, J>)
    requires m != map[] && forall k :: k in m ==> k != [] && 97 <= k[0] <= 122
    ensures |Dumps(JObj(m))| >= 3 && exists k :: k in m && Dumps(JObj(m))[0] == 123 && Dumps(JObj(m))[2] == k[0]
  {
    var ks := SortedKeys(m.Keys);
    assert |ks| == |m.Keys| > 0;
    var k := ks[0];
    assert k in m;
    QuoteStart(k);
    var f := FieldsFor(JObj(m), ks);
    assert f.FCons? && f.key == Units(k);
    FieldsStart(f);
  }

  lemma FieldsStart(f: Fields)
    requires f.FCons? && |Quote(f.key)| >= 2
    ensures |PrintRaw(RObj(f))| >= 3 && PrintRaw(RObj(f))[0] == 123 && PrintRaw(RObj(f))[2] == Quote(f.key)[1]
  {
  }

  lemma QuoteStart(k: Str)
    requires k != [] && 97 <= k[0] <= 122
    ensures |Quote(Units(k))| >= 2 && Quote(Units(k))[1] == k[0]
  {
    assert Units(k)[0] == k[0] && EscapeAll(Units(k))[0] == k[0];
  }

  lemma EnvelopeStart(t: Str, i: Str, f: Str, p: J)
    ensures var e := CanonicalEnvelope(t, i, f, p); |e| >= 3 && e[0] == 123 && e[2] == 118
  {
    FirstFieldStart(RInt(1), SignedTree(RStr(Units(t)), RStr(Units(i)), RStr(Units(f)), ToRaw(p)).fields.rest);
  }

  lemma FirstFieldStart(v: Raw, rest: Fields)
    ensures var e := PrintRaw(RObj(FCons(Asc("v"), v, rest))); |e| >= 3 && e[0] == 123 && e[2] == 118
  {
    assert Quote(Asc("v"))[1] == 118 by { EscapePlain(Asc("v")); assert Asc("v") == [118]; }
    var body := PrintFields(FCons(Asc("v"), v, rest), true);
    assert body[1] == 118;
  }

  lemma ManifestStart(f: Manifest)
    ensures CanonicalManifest(f) != [] && CanonicalManifest(f)[0] == 123
  {
    FirstLetters(ManifestDict(f), f);
    ObjectStart(ManifestDict(f));
  }

  /** No envelope text is a manifest text. */
  lemma EnvelopeIsNotManifest(t: Str, i: Str, f: Str, p: J, g: Manifest)
    ensures CanonicalEnvelope(t, i, f, p) != CanonicalManifest(g)
  {
    FirstLetters(ManifestDict(g), g);
    ObjectStart(ManifestDict(g));
    EnvelopeStart(t, i, f, p);
  }

  lemma FirstLetters(m: map<Str, J>, g: Manifest)
    requires m == ManifestDict(g)
    ensures m != map[] && forall k :: k in m ==> k != [] && 97 <= k[0] <= 122 && k[0] != 118
  {
    assert Asc("file_id") in m;
  }

  // ---------------------------------------------------------------- building and verifying

  function EnvelopeDict(from: Str, id: Str, payload: J, sig: Str, typ: Str): map<Str, J>
  {
    map[Asc("from") := JStr(from), Asc("id") := JStr(id), Asc("payload") := payload,
        Asc("sig") := JStr(sig), Asc("type") := JStr(typ), Asc("v") := JInt(1)]
  }

  /** build_envelope for the identity with private seed `seed`: only the types of IsSignedType are signed. */
  function BuildEnvelope(p: Prims, seed: Bytes, typ: Str, payload: J, id: Str): J
  {
    var fp := Fingerprint(p, p.publicKey(seed));
    var sig := if IsSignedType(typ) then B64e(p.sign(seed, CanonicalEnvelope(typ, id, fp, payload))) else [];
    JObj(EnvelopeDict(fp, id, payload, sig, typ))
  }

  /** verify_envelope; None when it raises (a missing or non-text id or sender, an unhashable type). */
  function VerifyEnvelope(p: Prims, env: J, rawPub: Bytes): Option<bool>
  {
    var typ := Field(env, Asc("type"));
    if typ.Some? && (typ.value.JArr? || typ.value.JObj?) then None
    else if typ == None || !typ.value.JStr? || !IsSignedType(typ.value.s) then Some(true)
    else
      match TextField(env, Asc("sig"))
      case None => Some(false)
      case Some(sig64) =>
        if sig64 == [] || B64d(sig64) == None then Some(false)
        else
          var id :- TextField(env, Asc("id"));
          var from :- TextField(env, Asc("from"));
          var payload :- Field(env, Asc("payload"));
          Some(p.verify(rawPub, B64d(sig64).value, CanonicalEnvelope(typ.value.s, id, from, payload)))
  }

  /** `env` carries a signature over `typ`, its id, its sender and its payload that verifies under `rawPub`. */
  predicate SignatureHolds(p: Prims, env: J, typ: Str, rawPub: Bytes)
  {
    var sig, id, from := TextField(env, Asc("sig")), TextField(env, Asc("id")), TextField(env, Asc("from"));
    var payload := Field(env, Asc("payload"));
    && sig.Some? && id.Some? && from.Some? && payload.Some? && sig.value != [] && B64d(sig.value).Some?
    && p.verify(rawPub, B64d(sig.value).value, CanonicalEnvelope(typ, id.value, from.value, payload.value))
  }

  /** Of the fourteen message types exactly these seven need a signature; an envelope of any other passes. */
  lemma SignatureNeeded(p: Prims, env: J, typ: Str, rawPub: Bytes)
    requires HasType(env, typ)
    ensures typ in {Asc("HELLO"), Asc("CONTACT_REQUEST"), Asc("CONTACT_ACCEPT"), Asc("HANDSHAKE_INIT"), Asc("HANDSHAKE_RESP"),
                    Asc("KEY_ROTATE_NOTICE"), Asc("TRANSFER_START")}
            ==> (VerifyEnvelope(p, env, rawPub) == Some(true) <==> SignatureHolds(p, env, typ, rawPub))
    ensures typ !in {Asc("HELLO"), Asc("CONTACT_REQUEST"), Asc("CONTACT_ACCEPT"), Asc("HANDSHAKE_INIT"), Asc("HANDSHAKE_RESP"),
                     Asc("KEY_ROTATE_NOTICE"), Asc("TRANSFER_START")}
            ==> VerifyEnvelope(p, env, rawPub) == Some(true)
  {
    hide CanonicalEnvelope, B64d;
  }

  /** A type that is a list or an object raises; any other that is not text passes, like a missing one. */
  lemma TypeNotText(p: Prims, env: J, rawPub: Bytes)
    requires TextField(env, Asc("type")) == None
    ensures var typ := Field(env, Asc("type"));
            VerifyEnvelope(p, env, rawPub) == if typ.Some? && (typ.value.JArr? || typ.value.JObj?) then None else Some(true)
  {
  }

  /** When a signature does not hold the check answers false, unless a field is missing or is not text: then it raises. */
  lemma SignatureRefused(p: Prims, env: J, typ: Str, rawPub: Bytes)
    requires HasType(env, typ) && IsSignedType(typ) && !SignatureHolds(p, env, typ, rawPub)
    ensures VerifyEnvelope(p, env, rawPub)
            == if TextField(env, Asc("sig")).Some? && TextField(env, Asc("sig")).value != []
                  && B64d(TextField(env, Asc("sig")).value).Some?
                  && (TextField(env, Asc("id")) == None || TextField(env, Asc("from")) == None || Field(env, Asc("payload")) == None)
               then None else Some(false)
  {
    hide CanonicalEnvelope, B64d, IsSignedType;
  }

  lemma EnvelopeFields(from: Str, id: Str, payload: J, sig: Str, typ: Str)
    ensures var e := JObj(EnvelopeDict(from, id, payload, sig, typ));
            && TextField(e, Asc("from")) == Some(from) && TextField(e, Asc("id")) == Some(id)
            && Field(e, Asc("payload")) == Some(payload) && TextField(e, Asc("sig")) == Some(sig)
            && Field(e, Asc("type")) == Some(JStr(typ))
  {
    AscInjective();
  }

  lemma VerifyByFields(p: Prims, env: J, typ: Str, id: Str, from: Str, payload: J, sig64: Str, raw: Bytes, rawPub: Bytes)
    requires Field(env, Asc("type")) == Some(JStr(typ))
    requires TextField(env, Asc("sig")) == Some(sig64) && sig64 != [] && B64d(sig64) == Some(raw)
    requires TextField(env, Asc("id")) == Some(id) && TextField(env, Asc("from")) == Some(from)
    requires Field(env, Asc("payload")) == Some(payload) && IsSignedType(typ)
    ensures VerifyEnvelope(p, env, rawPub) == Some(p.verify(rawPub, raw, CanonicalEnvelope(typ, id, from, payload)))
  {
    hide CanonicalEnvelope, IsSignedType, B64d;
  }

  /** An envelope of any type, signed ones included, verifies under its builder's key. */
  lemma BuiltEnvelopeVerifies(p: Prims, seed: Bytes, typ: Str, payload: J, id: Str)
    requires SignaturesVerify(p)
    ensures VerifyEnvelope(p, BuildEnvelope(p, seed, typ, payload, id), p.publicKey(seed)) == Some(true)
  {
    var fp := Fingerprint(p, p.publicKey(seed));
    var raw := p.sign(seed, CanonicalEnvelope(typ, id, fp, payload));
    var env := BuildEnvelope(p, seed, typ, payload, id);
    EnvelopeFields(fp, id, payload, if IsSignedType(typ) then B64e(raw) else [], typ);
    if IsSignedType(typ) {
      RoundTrip(raw);
      VerifyByFields(p, env, typ, id, fp, payload, B64e(raw), raw, p.publicKey(seed));
    }
  }

  /** What a built envelope holds: a signature exactly on the seven types that need one, and none otherwise. */
  lemma BuiltEnvelopeIs(p: Prims, seed: Bytes, typ: Str, payload: J, id: Str)
    ensures var e, fp := BuildEnvelope(p, seed, typ, payload, id), Fingerprint(p, p.publicKey(seed));
            && Field(e, Asc("type")) == Some(JStr(typ)) && Field(e, Asc("id")) == Some(JStr(id))
            && Field(e, Asc("from")) == Some(JStr(fp)) && Field(e, Asc("payload")) == Some(payload)
            && Field(e, Asc("v")) == Some(JInt(1))
            && TextField(e, Asc("sig"))
               == Some(if typ in {Asc("HELLO"), Asc("CONTACT_REQUEST"), Asc("CONTACT_ACCEPT"), Asc("HANDSHAKE_INIT"),
                                  Asc("HANDSHAKE_RESP"), Asc("KEY_ROTATE_NOTICE"), Asc("TRANSFER_START")}
                       then B64e(p.sign(seed, CanonicalEnvelope(typ, id, fp, payload))) else [])
  {
    hide CanonicalEnvelope, B64e, Fingerprint;
    var fp := Fingerprint(p, p.publicKey(seed));
    var sig: Str := if IsSignedType(typ) then B64e(p.sign(seed, CanonicalEnvelope(typ, id, fp, payload))) else [];
    EnvelopeFields(fp, id, payload, sig, typ);
    AscInjective();
  }

  // ---------------------------------------------------------------- frames

  /** What send_frame puts on the wire; None is its "Frame too large" ValueError. */
  function FrameBytes(env: J): Option<Bytes>
  {
    var data := Dumps(env);
    if |data| > MAX_FRAME then None else Some(BigEndian(|data|, 4) + data)
  }

  datatype FrameResult = Frame(env: J, rest: Bytes) | Closed | TooLarge | BadJson

  /** What recv_frame makes of the bytes still to come. */
  function TakeFrame(s: Bytes): (r: FrameResult)
    ensures r.Frame? ==> |r.rest| < |s|
  {
    if |s| < 4 then Closed
    else
      var length := FromBigEndian(s[..4]);
      if length > MAX_FRAME then TooLarge
      else if |s| < 4 + length then Closed
      else
        match Loads(s[4..4 + length])
        case None => BadJson
        case Some(env) => Frame(env, s[4 + length..])
  }

  /** recv_frame over and over, until it raises. */
  function TakeFrames(s: Bytes): (seq<J>, FrameResult)
    decreases |s|
  {
    match TakeFrame(s)
    case Frame(env, rest) => var (envs, end) := TakeFrames(rest); ([env] + envs, end)
    case end => ([], end)
  }

  /** The bytes of a run of send_frame calls, all of which succeed. */
  function Stream(envs: seq<J>): Option<Bytes>
  {
    if envs == [] then Some([])
    else
      var first :- FrameBytes(envs[0]);
      var rest :- Stream(envs[1..]);
      Some(first + rest)
  }

  /** On the wire: four length bytes, the highest first, then the text; nothing above 4 MiB. */
  lemma FrameLayout(env: J)
    ensures FrameBytes(env).Some? <==> |Dumps(env)| <= 4_194_304
    ensures FrameBytes(env).Some?
            ==> var n := |Dumps(env)|;
                FrameBytes(env).value == [n / 0x100_0000, n / 0x1_0000 % 256, n / 0x100 % 256, n % 256] + Dumps(env)
  {
    hide Dumps;
    var n := |Dumps(env)|;
    if n <= MAX_FRAME { FourBytes(n); }
  }

  lemma FourBytes(n: nat)
    requires n < 0x1_0000_0000
    ensures BigEndian(n, 4) == [n / 0x100_0000, n / 0x1_0000 % 256, n / 0x100 % 256, n % 256]
  {
    var a, b, c := n / 256, n / 256 / 256, n / 256 / 256 / 256;
    assert c == n / 0x100_0000 && b == n / 0x1_0000;
    assert BigEndian(c, 1) == [c % 256] && BigEndian(b, 2) == BigEndian(c, 1) + [b % 256];
    assert BigEndian(a, 3) == BigEndian(b, 2) + [a % 256] && BigEndian(n, 4) == BigEndian(a, 3) + [n % 256];
  }

  lemma TakeFrameOfFrame(env: J, rest: Bytes)
    requires FrameBytes(env).Some?
    ensures TakeFrame(FrameBytes(env).value + rest) == Frame(AsRead(env), rest)
  {
    var data := Dumps(env);
    var s := BigEndian(|data|, 4) + data + rest;
    WordSizes();
    BigEndianRoundTrip(|data|, 4);
    assert s[..4] == BigEndian(|data|, 4) && s[4..4 + |data|] == data && s[4 + |data|..] == rest;
    LoadsGives(env);
  }

  /** The length four bytes announce. */
  function Announced(a: int, b: int, c: int, d: int): int { a * 0x100_0000 + b * 0x1_0000 + c * 0x100 + d }

  /** Why recv_frame raises, by the bytes to come: fewer than four, or than announced, is a closed connection; more than 4
      MiB announced is too large; anything else that does not read is not JSON. */
  lemma TakeFrameIs(s: Bytes)
    ensures var n := if |s| < 4 then 0 else Announced(s[0], s[1], s[2], s[3]);
            TakeFrame(s) == if |s| < 4 then Closed
                            else if n > 4_194_304 then TooLarge
                            else if |s| < 4 + n then Closed
                            else if Loads(s[4..4 + n]) == None then BadJson
                            else Frame(Loads(s[4..4 + n]).value, s[4 + n..])
  {
    hide Loads;
    if |s| >= 4 { FourBytesRead(s[..4]); }
  }

  lemma FourBytesRead(s: Bytes)
    requires |s| == 4
    ensures FromBigEndian(s) == Announced(s[0], s[1], s[2], s[3])
  {
    assert s[..3][..2] == s[..2] && s[..2][..1] == s[..1] && s[..1][..0] == [];
    var a: int, b: int, c: int := s[0], s[1], s[2];
    assert FromBigEndian(s[..1]) == a && FromBigEndian(s[..2]) == a * 256 + b;
    assert FromBigEndian(s[..3]) == (a * 256 + b) * 256 + c;
  }

  lemma TakeFrameTruncated(env: J, s: Bytes)
    requires FrameBytes(env).Some? && s <= FrameBytes(env).value && |s| < |FrameBytes(env).value|
    ensures TakeFrame(s) == Closed
  {
    var data := Dumps(env);
    if |s| >= 4 {
      WordSizes();
      BigEndianRoundTrip(|data|, 4);
      assert s[..4] == FrameBytes(env).value[..4] == BigEndian(|data|, 4);
    }
  }

  function AllAsRead(envs: seq<J>): (l: seq<J>)
    ensures |l| == |envs| && forall i :: 0 <= i < |envs| ==> l[i] == AsRead(envs[i])
  {
    seq(|envs|, i requires 0 <= i < |envs| => AsRead(envs[i]))
  }

  /** Framing round trip: the reader gets the sent envelopes as they read back, in order, with nothing left; and
      these are the sent ones exactly when no string in them has a surrogate pair. */
  lemma {:induction false} FramesRoundTrip(envs: seq<J>)
    requires Stream(envs).Some?
    ensures TakeFrames(Stream(envs).value) == (AllAsRead(envs), Closed)
    ensures AllAsRead(envs) == envs <==> forall e :: e in envs ==> Unpaired(e)
  {
    AllReadBack(envs);
    if envs != [] {
      hide AsRead, Unpaired, FrameBytes, TakeFrames, AllAsRead;
      var first, rest := FrameBytes(envs[0]).value, Stream(envs[1..]).value;
      assert Stream(envs) == Some(first + rest);
      hide Stream;
      FirstTaken(envs[0], rest);
      FramesRoundTrip(envs[1..]);
      ConsAsRead(envs);
    }
  }

  lemma ConsAsRead(envs: seq<J>)
    requires envs != []
    ensures AllAsRead(envs) == [AsRead(envs[0])] + AllAsRead(envs[1..])
  {
    hide AsRead;
  }

  lemma FirstTaken(env: J, s: Bytes)
    requires FrameBytes(env).Some?
    ensures TakeFrames(FrameBytes(env).value + s) == ([AsRead(env)] + TakeFrames(s).0, TakeFrames(s).1)
  {
    hide AsRead, FrameBytes, TakeFrame;
    TakeFrameOfFrame(env, s);
  }

  lemma AllReadBack(envs: seq<J>)
    ensures AllAsRead(envs) == envs <==> forall e :: e in envs ==> Unpaired(e)
  {
    hide AsRead, Unpaired;
    forall i | 0 <= i < |envs|
      ensures AllAsRead(envs)[i] == envs[i] <==> Unpaired(envs[i])
    {
      ReadsBack(envs[i]);
    }
    if forall e :: e in envs ==> Unpaired(e) {
      forall i | 0 <= i < |envs| ensures AllAsRead(envs)[i] == envs[i] { assert envs[i] in envs; }
    }
  }

  /** A stream cut anywhere yields exactly the envelopes whose frames are complete, then the closed
      connection; never a partial envelope. */
  lemma {:induction false} TruncatedStream(envs: seq<J>, s: Bytes) returns (n: nat)
    requires Stream(envs).Some?
    requires s <= Stream(envs).value && |s| < |Stream(envs).value|
    ensures n < |envs| && TakeFrames(s) == (AllAsRead(envs[..n]), Closed)
    ensures Stream(envs[..n]).Some? && Stream(envs[..n]).value <= s
    ensures Stream(envs[..n + 1]).Some? && |s| < |Stream(envs[..n + 1]).value|
  {
    hide FrameBytes, TakeFrames, AsRead;
    var first := FrameBytes(envs[0]).value;
    var rest := Stream(envs[1..]).value;
    assert Stream(envs).value == first + rest;
    if |s| < |first| {
      n := 0;
      assert envs[..1] == [envs[0]];
      TruncatedInFirst(envs, s, first, rest);
    } else {
      var t := s[|first|..];
      SuffixOfPrefix(s, first, rest);
      FirstTaken(envs[0], t);
      n := TruncatedStream(envs[1..], t);
      FirstFrames(envs, n);
      FirstFrames(envs, n + 1);
      n := n + 1;
    }
  }

  lemma FirstFrames(envs: seq<J>, n: nat)
    requires n < |envs| && FrameBytes(envs[0]).Some? && Stream(envs[1..][..n]).Some?
    ensures Stream(envs[..n + 1]) == Some(FrameBytes(envs[0]).value + Stream(envs[1..][..n]).value)
    ensures AllAsRead(envs[..n + 1]) == [AsRead(envs[0])] + AllAsRead(envs[1..][..n])
  {
    hide FrameBytes, AsRead, Stream, AllAsRead;
    var t := envs[1..][..n];
    assert envs[..n + 1] == [envs[0]] + t;
    StreamCons(envs[0], t);
    AllAsReadCons(envs[0], t);
  }

  lemma AllAsReadCons(env: J, envs: seq<J>)
    ensures AllAsRead([env] + envs) == [AsRead(env)] + AllAsRead(envs)
  {
    hide AsRead;
  }

  lemma SuffixOfPrefix(s: Bytes, first: Bytes, rest: Bytes)
    requires s <= first + rest && |s| >= |first|
    ensures s == first + s[|first|..] && s[|first|..] <= rest
  {
    assert s == (first + rest)[..|s|];
    assert s[..|first|] == first;
  }

  lemma TruncatedInFirst(envs: seq<J>, s: Bytes, first: Bytes, rest: Bytes)
    requires envs != [] && FrameBytes(envs[0]) == Some(first) && s <= first + rest && |s| < |first|
    ensures TakeFrames(s) == ([], Closed) && Stream([]) == Some([])
    ensures [] + [envs[0]] == [envs[0]] && Stream([envs[0]]) == Some(first)
  {
    assert s == (first + rest)[..|s|] == first[..|s|];
    TakeFrameTruncated(envs[0], s);
    StreamCons(envs[0], []);
    assert [envs[0]] + [] == [envs[0]] && first + [] == first;
  }

  lemma StreamCons(env: J, envs: seq<J>)
    requires FrameBytes(env).Some? && Stream(envs).Some?
    ensures Stream([env] + envs) == Some(FrameBytes(env).value + Stream(envs).value)
  {
    assert ([env] + envs)[1..] == envs;
  }

  /** A signature made for one text that also verifies on another. */
  predicate VerifiesTwice(p: Prims, seed: Bytes, made: Bytes, other: Bytes)
  {
    made != other && p.verify(p.publicKey(seed), p.sign(seed, made), other)
  }

  /** Signed delivery: built, framed and read back, whatever follows, an envelope is there with its type, id and payload
      as they read back. It verifies under the sender's key exactly when it is of an unsigned type, or its payload's
      text is what it was (or the signature happens to verify on the new text too); ids and string values never
      matter, only the order of dict keys does. */
  lemma SignedDelivery(p: Prims, seed: Bytes, typ: Str, payload: J, id: Str, rest: Bytes)
    requires SignaturesVerify(p) && FrameBytes(BuildEnvelope(p, seed, typ, payload, id)).Some?
    ensures var r := TakeFrame(FrameBytes(BuildEnvelope(p, seed, typ, payload, id)).value + rest);
            && r.Frame? && r.rest == rest && (HasType(r.env, typ) <==> NoPair(typ))
            && Field(r.env, Asc("payload")) == Some(AsRead(payload)) && Field(r.env, Asc("id")) == Some(AsRead(JStr(id)))
            && (VerifyEnvelope(p, r.env, p.publicKey(seed)) == Some(true)
                <==> !IsSignedType(typ) || KeysKeepOrder(payload)
                     || VerifiesTwice(p, seed, TextOf(p, seed, typ, payload, id), TextOf(p, seed, typ, AsRead(payload), id)))
  {
    hide VerifyEnvelope, FrameBytes, TakeFrame, BuildEnvelope, AsRead, IsSignedType, KeysKeepOrder, TextOf;
    var env := BuildEnvelope(p, seed, typ, payload, id);
    TakeFrameOfFrame(env, rest);
    EnvelopeRead(p, seed, typ, payload, id);
    TypeRead(typ);
    EnvelopeVerifiesAsRead(p, seed, typ, payload, id);
  }

  /** The text build_envelope signs. */
  function TextOf(p: Prims, seed: Bytes, typ: Str, payload: J, id: Str): Bytes
  {
    CanonicalEnvelope(typ, id, Fingerprint(p, p.publicKey(seed)), payload)
  }

  lemma TypeRead(typ: Str)
    ensures AsRead(JStr(typ)) == JStr(typ) <==> NoPair(typ)
    ensures AsRead(JStr(typ)).JStr? && Units(AsRead(JStr(typ)).s) == Units(typ)
    ensures IsSignedType(AsRead(JStr(typ)).s) <==> IsSignedType(typ)
    ensures IsSignedType(typ) ==> NoPair(typ)
  {
    ReadsBack(JStr(typ));
    UnitsJoin(Units(typ));
    if IsSignedType(typ) { SignedTypePlain(typ); }
    if IsSignedType(Join(Units(typ))) {
      SignedTypePlain(Join(Units(typ)));
      PlainUnits(typ, Join(Units(typ)));
    }
  }

  lemma SignedTypePlain(typ: Str)
    requires IsSignedType(typ)
    ensures PlainStr(typ) && NoPair(typ)
  {
  }

  /** The fields of an envelope read back. */
  lemma EnvelopeRead(p: Prims, seed: Bytes, typ: Str, payload: J, id: Str)
    ensures var e, from := AsRead(BuildEnvelope(p, seed, typ, payload, id)), Fingerprint(p, p.publicKey(seed));
            && Field(e, Asc("type")) == Some(AsRead(JStr(typ))) && Field(e, Asc("id")) == Some(AsRead(JStr(id)))
            && Field(e, Asc("payload")) == Some(AsRead(payload)) && TextField(e, Asc("from")) == Some(from)
            && (IsSignedType(typ) ==> TextField(e, Asc("sig")) == Some(B64e(p.sign(seed, TextOf(p, seed, typ, payload, id)))))
  {
    hide AsRead, IsSignedType, CanonicalEnvelope, B64e, Fingerprint;
    var from := Fingerprint(p, p.publicKey(seed));
    var sig: Str := if IsSignedType(typ) then B64e(p.sign(seed, CanonicalEnvelope(typ, id, from, payload))) else [];
    DictOfTexts(from, id, payload, sig, typ);
    ByteRead(from);
    ByteRead(sig);
  }

  lemma DictOfTexts(from: Str, id: Str, payload: J, sig: Str, typ: Str)
    ensures var e := AsRead(JObj(EnvelopeDict(from, id, payload, sig, typ)));
            && Field(e, Asc("type")) == Some(AsRead(JStr(typ))) && Field(e, Asc("id")) == Some(AsRead(JStr(id)))
            && Field(e, Asc("payload")) == Some(AsRead(payload)) && Field(e, Asc("from")) == Some(AsRead(JStr(from)))
            && Field(e, Asc("sig")) == Some(AsRead(JStr(sig)))
  {
    hide AsRead;
    var m := EnvelopeDict(from, id, payload, sig, typ);
    EnvelopeFields(from, id, payload, sig, typ);
    forall k | k in m ensures NoPair(k) { AscUnpaired(); }
    DictRead(m);
  }

  lemma ByteRead(b: Bytes)
    ensures AsRead(JStr(b)) == JStr(b)
  {
    ReadsBack(JStr(b));
  }

  lemma EnvelopeVerifiesAsRead(p: Prims, seed: Bytes, typ: Str, payload: J, id: Str)
    requires SignaturesVerify(p)
    ensures VerifyEnvelope(p, AsRead(BuildEnvelope(p, seed, typ, payload, id)), p.publicKey(seed)) == Some(true)
            <==> !IsSignedType(typ) || KeysKeepOrder(payload)
                 || VerifiesTwice(p, seed, TextOf(p, seed, typ, payload, id), TextOf(p, seed, typ, AsRead(payload), id))
  {
    hide BuildEnvelope, AsRead, IsSignedType, KeysKeepOrder, B64e, B64d, TextOf, SignaturesVerify, VerifyEnvelope;
    var env := AsRead(BuildEnvelope(p, seed, typ, payload, id));
    EnvelopeRead(p, seed, typ, payload, id);
    TypeRead(typ);
    if IsSignedType(typ) {
      ReadsBack(JStr(typ));
      var raw := p.sign(seed, TextOf(p, seed, typ, payload, id));
      SignatureText(p, seed, typ, payload, id);
      var readId := AsRead(JStr(id)).s;
      VerifyByFields(p, env, typ, readId, Fingerprint(p, p.publicKey(seed)), AsRead(payload), B64e(raw), raw, p.publicKey(seed));
      SameTextAsRead(p, seed, typ, payload, id);
    } else {
      UnsignedVerifies(p, env, AsRead(JStr(typ)).s, p.publicKey(seed));
    }
  }

  lemma UnsignedVerifies(p: Prims, env: J, typ: Str, rawPub: Bytes)
    requires Field(env, Asc("type")) == Some(JStr(typ)) && !IsSignedType(typ)
    ensures VerifyEnvelope(p, env, rawPub) == Some(true)
  {
  }

  lemma SignatureText(p: Prims, seed: Bytes, typ: Str, payload: J, id: Str)
    requires SignaturesVerify(p)
    ensures var t := TextOf(p, seed, typ, payload, id);
            && B64d(B64e(p.sign(seed, t))) == Some(p.sign(seed, t)) && B64e(p.sign(seed, t)) != []
            && p.verify(p.publicKey(seed), p.sign(seed, t), t)
            && AsRead(JStr(id)).JStr?
  {
    hide TextOf;
    RoundTrip(p.sign(seed, TextOf(p, seed, typ, payload, id)));
  }

  lemma SameTextAsRead(p: Prims, seed: Bytes, typ: Str, payload: J, id: Str)
    ensures AsRead(JStr(id)).JStr?
    ensures CanonicalEnvelope(typ, AsRead(JStr(id)).s, Fingerprint(p, p.publicKey(seed)), AsRead(payload))
         == TextOf(p, seed, typ, AsRead(payload), id)
    ensures TextOf(p, seed, typ, AsRead(payload), id) == TextOf(p, seed, typ, payload, id) <==> KeysKeepOrder(payload)
  {
    var from := Fingerprint(p, p.publicKey(seed));
    UnitsJoin(Units(id));
    PrintsAsBefore(payload);
    assert AsRead(JStr(id)) == JStr(Join(Units(id)));
    hide AsRead, KeysKeepOrder;
    if TextOf(p, seed, typ, AsRead(payload), id) == TextOf(p, seed, typ, payload, id) {
      CanonicalEnvelopeDecides(typ, id, from, AsRead(payload), typ, id, from, payload);
    }
  }

  lemma BuiltEnvelopeType(p: Prims, seed: Bytes, typ: Str, payload: J, id: Str)
    ensures HasType(BuildEnvelope(p, seed, typ, payload, id), typ)
  {
    hide CanonicalEnvelope, IsSignedType;
    var fp := Fingerprint(p, p.publicKey(seed));
    var sig := if IsSignedType(typ) then B64e(p.sign(seed, CanonicalEnvelope(typ, id, fp, payload))) else [];
    EnvelopeFields(fp, id, payload, sig, typ);
  }

  lemma BuiltEnvelopeFields(p: Prims, seed: Bytes, typ: Str, payload: J, id: Str)
    ensures var e := BuildEnvelope(p, seed, typ, payload, id);
            e.JObj? && HasType(e, typ) && Field(e, Asc("payload")) == Some(payload) && TextField(e, Asc("id")) == Some(id)
            && TextField(e, Asc("from")) == Some(Fingerprint(p, p.publicKey(seed)))
  {
    hide CanonicalEnvelope, IsSignedType;
    var fp := Fingerprint(p, p.publicKey(seed));
    var sig := if IsSignedType(typ) then B64e(p.sign(seed, CanonicalEnvelope(typ, id, fp, payload))) else [];
    EnvelopeFields(fp, id, payload, sig, typ);
  }

  lemma EnvelopeUnpaired(from: Str, id: Str, payload: J, sig: Str, typ: Str)
    requires NoPair(from) && NoPair(id) && Unpaired(payload) && NoPair(sig) && NoPair(typ)
    ensures Unpaired(JObj(EnvelopeDict(from, id, payload, sig, typ)))
  {
    var m := EnvelopeDict(from, id, payload, sig, typ);
    forall k | k in m
      ensures NoPair(k) && Unpaired(m[k])
    {
      AscUnpaired();
      assert m[k] in {JStr(from), JStr(id), payload, JStr(sig), JStr(typ), JInt(1)};
    }
  }

  lemma AscUnpaired()
    ensures forall s :: NoPair(Asc(s))
  {
  }

  lemma BuiltEnvelopeUnpaired(p: Prims, seed: Bytes, typ: Str, payload: J, id: Str)
    requires NoPair(typ) && NoPair(id) && Unpaired(payload)
    ensures Unpaired(BuildEnvelope(p, seed, typ, payload, id))
  {
    hide EnvelopeDict, CanonicalEnvelope, IsSignedType, Unpaired, B64e;
    var fp := Fingerprint(p, p.publicKey(seed));
    var sig := if IsSignedType(typ) then B64e(p.sign(seed, CanonicalEnvelope(typ, id, fp, payload))) else [];
    EnvelopeUnpaired(fp, id, payload, sig, typ);
  }

  /** A socket as recv and sendall see it: the bytes on their way in, the bytes sent out. */
  class Connection {
    var incoming: Bytes
    var outgoing: Bytes

    constructor (inbound: Bytes)
      ensures incoming == inbound && outgoing == []
    {
      incoming, outgoing := inbound, [];
    }

    /** `sock.recv(n)`: any nonempty piece of what is there, empty only at the end of the stream. */
    method Recv(n: nat) returns (chunk: Bytes)
      requires n > 0
      modifies this`incoming
      ensures old(incoming) == chunk + incoming
      ensures |chunk| <= n && (chunk == [] <==> old(incoming) == [])
    {
      chunk := [];
      if incoming != [] {
        var k: nat :| 1 <= k <= n && k <= |incoming|;
        chunk := incoming[..k];
        incoming := incoming[k..];
      }
    }

    /** _recv_exact; None is its ConnectionError. */
    method RecvExact(n: nat) returns (r: Option<Bytes>)
      modifies this`incoming
      ensures |old(incoming)| >= n ==> r == Some(old(incoming)[..n]) && incoming == old(incoming)[n..]
      ensures |old(incoming)| < n ==> r == None && incoming == []
    {
      var buf: Bytes := [];
      while |buf| < n
        invariant |buf| <= n && old(incoming) == buf + incoming
        decreases n - |buf|
      {
        var chunk := Recv(n - |buf|);
        if chunk == [] {
          return None;
        }
        buf := buf + chunk;
      }
      r := Some(buf);
    }

    /** recv_frame, whatever pieces the stream arrives in. */
    method RecvFrame() returns (r: FrameResult)
      modifies this`incoming
      ensures r == TakeFrame(old(incoming))
      ensures r.Frame? ==> incoming == r.rest
    {
      var rawLen := RecvExact(4);
      if rawLen == None {
        return Closed;
      }
      var length := FromBigEndian(rawLen.value);
      if length > MAX_FRAME {
        return TooLarge;
      }
      var raw := RecvExact(length);
      if raw == None {
        return Closed;
      }
      assert old(incoming)[4..][..length] == old(incoming)[4..4 + length];
      assert old(incoming)[4..][length..] == old(incoming)[4 + length..];
      match Loads(raw.value)
      case None => r := BadJson;
      case Some(env) => r := Frame(env, incoming);
    }

    /** send_frame; false is its ValueError, and then nothing is sent. */
    method SendFrame(env: J) returns (ok: bool)
      modifies this`outgoing
      ensures ok == FrameBytes(env).Some?
      ensures outgoing == old(outgoing) + if ok then FrameBytes(env).value else []
    {
      var data := Dumps(env);
      if |data| > MAX_FRAME {
        return false;
      }
      outgoing := outgoing + (BigEndian(|data|, 4) + data);
      ok := true;
    }
  }
}
