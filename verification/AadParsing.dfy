/** Which chunk AADs can be read in more than one way: crypto_utils.py joins file id, index, count and message id
    with colons, and ids may hold colons themselves. */
module AadParsing {
  import opened Bytes
  import opened Text
  import opened CryptoUtils

  /** `s.split(":")` */
  function Split(s: Str): (l: seq<Str>)
    ensures l != []
  {
    if s == [] then [[]]
    else
      var rest := Split(s[1..]);
      if s[0] == COLON then [[]] + rest else [[s[0]] + rest[0]] + rest[1..]
  }

  /** `":".join(l)` */
  function Join(l: seq<Str>): Str
    requires l != []
  {
    if |l| == 1 then l[0] else l[0] + [COLON] + Join(l[1..])
  }

  lemma {:induction false} SplitPlain(s: Str)
    requires NoColon(s)
    ensures Split(s) == [s]
  {
    if s != [] {
      SplitPlain(s[1..]);
      assert s == [s[0]] + s[1..];
    }
  }

  lemma {:induction false} SplitAppend(a: Str, b: Str)
    ensures Split(a + [COLON] + b) == Split(a) + Split(b)
  {
    var s := a + [COLON] + b;
    if a == [] {
      assert s[1..] == b;
    } else {
      SplitAppend(a[1..], b);
      assert s[0] == a[0] && s[1..] == a[1..] + [COLON] + b;
      var rest := Split(a[1..]);
      TailOfSum(rest, Split(b));
      if a[0] == COLON {
        Assoc([[]], rest, Split(b));
      } else {
        Assoc([[a[0]] + rest[0]], rest[1..], Split(b));
      }
    }
  }

  lemma TailOfSum(a: seq<Str>, b: seq<Str>)
    requires a != []
    ensures (a + b)[0] == a[0] && (a + b)[1..] == a[1..] + b
  {
  }

  lemma {:induction false} SplitJoins(s: Str)
    ensures Join(Split(s)) == s
  {
    if s != [] {
      SplitJoins(s[1..]);
      var rest := Split(s[1..]);
      assert s == [s[0]] + s[1..];
      if s[0] == COLON {
        assert ([[]] + rest)[1..] == rest;
      } else {
        var l := [[s[0]] + rest[0]] + rest[1..];
        assert l[1..] == rest[1..];
        if |rest| > 1 { assert [s[0]] + (rest[0] + [COLON] + Join(rest[1..])) == [s[0]] + rest[0] + [COLON] + Join(rest[1..]); }
      }
    }
  }

  lemma {:induction false} SplitPieces(s: Str)
    ensures forall p :: p in Split(s) ==> NoColon(p)
  {
    if s != [] {
      SplitPieces(s[1..]);
      assert Split(s[1..])[0] in Split(s[1..]);
    }
  }

  lemma {:induction false} JoinAppend(a: seq<Str>, b: seq<Str>)
    requires a != [] && b != []
    ensures Join(a + b) == Join(a) + [COLON] + Join(b)
  {
    if |a| == 1 {
      assert (a + b)[1..] == b;
    } else {
      JoinAppend(a[1..], b);
      assert (a + b)[1..] == a[1..] + b;
      Assoc(a[0] + [COLON], Join(a[1..]) + [COLON], Join(b));
    }
  }

  lemma {:induction false} SplitOfJoin(l: seq<Str>)
    requires l != [] && forall p :: p in l ==> NoColon(p)
    ensures Split(Join(l)) == l
  {
    SplitPlain(l[0]);
    if |l| > 1 {
      SplitOfJoin(l[1..]);
      SplitAppend(l[0], Join(l[1..]));
      assert l == [l[0]] + l[1..];
    }
  }

  /** The pieces of an AAD: those of the file id, the two numbers, those of the message id. */
  lemma AadPieces(f: Str, i: int, t: int, m: Str)
    ensures Split(AadText(f, i, t, m)) == Split(f) + [Decimal(i), Decimal(t)] + Split(m)
  {
    var d, e: Str := Decimal(i), Decimal(t);
    DecimalNoColon(i);
    DecimalNoColon(t);
    SplitPlain(d);
    SplitPlain(e);
    SplitAppend(e, m);
    SplitAppend(d, e + [COLON] + m);
    SplitAppend(f, d + [COLON] + (e + [COLON] + m));
  }

  datatype Fields = Fields(fileId: Str, index: int, total: int, messageId: Str) {
    function Text(): Str { AadText(fileId, index, total, messageId) }
  }

  ghost predicate IsDecimal(s: Str) { exists n: int :: s == Decimal(n) }

  /** Pieces `j` and `j + 1` can be the index and the count, with ids on both sides. */
  ghost predicate ReadableAt(l: seq<Str>, j: nat) { 1 <= j <= |l| - 3 && IsDecimal(l[j]) && IsDecimal(l[j + 1]) }

  lemma PiecesDecide(x: Fields, y: Fields)
    requires x.Text() == y.Text() && |Split(x.fileId)| == |Split(y.fileId)|
    ensures x == y
  {
    AadPieces(x.fileId, x.index, x.total, x.messageId);
    AadPieces(y.fileId, y.index, y.total, y.messageId);
    var dx: seq<Str>, dy: seq<Str> := [Decimal(x.index), Decimal(x.total)], [Decimal(y.index), Decimal(y.total)];
    SplitSame(Split(x.fileId) + dx, Split(x.messageId), Split(y.fileId) + dy, Split(y.messageId));
    SplitSame(Split(x.fileId), dx, Split(y.fileId), dy);
    assert dx[0] == dy[0] && dx[1] == dy[1];
    DecimalInjective(x.index, y.index);
    DecimalInjective(x.total, y.total);
    SplitJoins(x.fileId); SplitJoins(y.fileId);
    SplitJoins(x.messageId); SplitJoins(y.messageId);
  }

  lemma ReadsAt(x: Fields)
    ensures ReadableAt(Split(x.Text()), |Split(x.fileId)|)
  {
    AadPieces(x.fileId, x.index, x.total, x.messageId);
    var l, j := Split(x.Text()), |Split(x.fileId)|;
    assert l[j] == Decimal(x.index) && l[j + 1] == Decimal(x.total);
  }

  lemma ReadingAt(s: Str, j: nat) returns (x: Fields)
    requires ReadableAt(Split(s), j)
    ensures x.Text() == s && |Split(x.fileId)| == j
  {
    var l := Split(s);
    var i: int :| l[j] == Decimal(i);
    var t: int :| l[j + 1] == Decimal(t);
    x := Fields(Join(l[..j]), i, t, Join(l[j + 2..]));
    hide Split, Join;
    SplitPieces(s);
    SplitOfJoin(l[..j]);
    SplitJoins(s);
    JoinAround(l, j);
  }

  lemma JoinAround(l: seq<Str>, j: nat)
    requires 1 <= j <= |l| - 3
    ensures Join(l) == Join(l[..j]) + [COLON] + (l[j] + [COLON] + (l[j + 1] + [COLON] + Join(l[j + 2..])))
  {
    JoinAppend(l[..j], l[j..]);
    assert l[..j] + l[j..] == l;
    assert l[j..][1..] == l[j + 1..] && l[j + 1..][1..] == l[j + 2..];
  }

  /** An AAD has a second reading exactly when, among its colon-separated pieces, two consecutive ones other than its
      index and count are decimals with pieces on both sides. */
  lemma SecondReading(x: Fields)
    ensures (exists y: Fields :: y != x && y.Text() == x.Text())
            <==> exists j :: j != |Split(x.fileId)| && ReadableAt(Split(x.Text()), j)
  {
    hide ReadableAt, AadText;
    if y: Fields :| y != x && y.Text() == x.Text() {
      ReadsAt(y);
      if |Split(y.fileId)| == |Split(x.fileId)| { PiecesDecide(x, y); }
      assert ReadableAt(Split(x.Text()), |Split(y.fileId)|);
    }
    if j :| j != |Split(x.fileId)| && ReadableAt(Split(x.Text()), j) {
      var y := ReadingAt(x.Text(), j);
      assert y != x && y.Text() == x.Text();
    }
  }

  /** One colon is enough: file "a:5", chunk 7 of 9, reads as file "a", chunk 5 of 7. */
  lemma AadAmbiguous()
    ensures AadText(Asc("a:5"), 7, 9, Asc("m")) == AadText(Asc("a"), 5, 7, Asc("9:m"))
  {
    assert Asc("a:5") == [97, 58, 53] && Asc("9:m") == [57, 58, 109] && Asc("a") == [97] && Asc("m") == [109];
    assert Decimal(5) == [53] && Decimal(7) == [55] && Decimal(9) == [57];
  }
}
