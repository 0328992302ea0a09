/** Shared vocabulary: bytes, optional values, chunk concatenation, decimal
    rendering of integers and splitting of header values on a separator. */
module Common {

  /** One octet, as held in a Uint8Array. */
  type Byte = bv8

  type Bytes = seq<Byte>

  datatype Option<T> = None | Some(value: T)

  /** The chunks of a stream or a blob laid end to end, with no delimiters. */
  function Flatten(chunks: seq<Bytes>): Bytes
  {
    if chunks == [] then [] else Flatten(chunks[..|chunks| - 1]) + chunks[|chunks| - 1]
  }

  /** The sum of the lengths of the chunks. */
  function TotalLength(chunks: seq<Bytes>): nat
  {
    if chunks == [] then 0 else TotalLength(chunks[..|chunks| - 1]) + |chunks[|chunks| - 1]|
  }

  lemma {:induction false} FlattenLength(chunks: seq<Bytes>)
    ensures |Flatten(chunks)| == TotalLength(chunks)
  {
    if chunks != [] {
      FlattenLength(chunks[..|chunks| - 1]);
    }
  }

  lemma {:induction false} FlattenConcat(xs: seq<Bytes>, ys: seq<Bytes>)
    ensures Flatten(xs + ys) == Flatten(xs) + Flatten(ys)
  {
    if ys == [] {
      assert xs + ys == xs;
    } else {
      var zs := xs + ys;
      var init := ys[..|ys| - 1];
      assert zs[..|zs| - 1] == xs + init;
      assert zs[|zs| - 1] == ys[|ys| - 1];
      FlattenConcat(xs, init);
      assert Flatten(zs) == Flatten(xs + init) + ys[|ys| - 1];
      assert Flatten(ys) == Flatten(init) + ys[|ys| - 1];
    }
  }

  lemma FlattenCons(x: Bytes, ys: seq<Bytes>)
    ensures Flatten([x] + ys) == x + Flatten(ys)
  {
    FlattenConcat([x], ys);
    assert Flatten([x]) == Flatten([]) + x;
  }

  /** A decimal digit character. */
  predicate IsDigit(c: char)
  {
    '0' <= c <= '9'
  }

  function DigitChar(d: nat): (c: char)
    requires d < 10
    ensures IsDigit(c)
  {
    ['0', '1', '2', '3', '4', '5', '6', '7', '8', '9'][d]
  }

  function DigitValue(c: char): (d: nat)
    requires IsDigit(c)
    ensures d < 10 && DigitChar(d) == c
  {
    (c as int - '0' as int)
  }

  /** The shortest decimal rendering of n, as JavaScript's String(n) gives it
      for a non-negative integer. */
  function NatToDecimal(n: nat): (s: string)
    ensures |s| > 0 && forall i :: 0 <= i < |s| ==> IsDigit(s[i])
    ensures |s| > 1 ==> s[0] != '0'
  {
    if n < 10 then [DigitChar(n)] else NatToDecimal(n / 10) + [DigitChar(n % 10)]
  }

  /** Decimal rendering of an integer, with a leading minus for a negative one. */
  function IntToDecimal(i: int): string
  {
    if i < 0 then "-" + NatToDecimal(-i) else NatToDecimal(i)
  }

  /** The value of a string of decimal digits; None for anything else,
      including the empty string. */
  function ParseDecimal(s: string): (r: Option<nat>)
    ensures r.Some? <==> (|s| > 0 && forall i :: 0 <= i < |s| ==> IsDigit(s[i]))
  {
    if s == [] || !IsDigit(s[|s| - 1]) then None
    else if |s| == 1 then Some(DigitValue(s[0]))
    else match ParseDecimal(s[..|s| - 1])
      case None => None
      case Some(v) => Some(10 * v + DigitValue(s[|s| - 1]))
  }

  lemma {:induction false} ParseNatToDecimal(n: nat)
    ensures ParseDecimal(NatToDecimal(n)) == Some(n)
  {
    if n >= 10 {
      var s := NatToDecimal(n);
      assert s[..|s| - 1] == NatToDecimal(n / 10);
      ParseNatToDecimal(n / 10);
    }
  }

  /** Splits s at every occurrence of sep, as String.prototype.split does for a
      one-character separator: the result always has at least one piece. */
  function Split(s: string, sep: char): (pieces: seq<string>)
    ensures |pieces| > 0
    ensures forall i :: 0 <= i < |pieces| ==> sep !in pieces[i]
  {
    if s == [] then [""]
    else
      var rest := Split(s[1..], sep);
      if s[0] == sep then [""] + rest
      else [[s[0]] + rest[0]] + rest[1..]
  }

  /** Joins the pieces, putting sep between consecutive ones. */
  function Join(pieces: seq<string>, sep: char): string
  {
    if pieces == [] then ""
    else if |pieces| == 1 then pieces[0]
    else pieces[0] + [sep] + Join(pieces[1..], sep)
  }

  lemma ConcatParts(p: string, t: string)
    ensures (p + t)[..|p|] == p && (p + t)[|p|..] == t
  {
  }

  lemma ConcatAssoc(a: string, b: string, c: string, d: string)
    ensures (a + b) + c + d == a + (b + c + d)
  {
  }

  lemma JoinHead(pieces: seq<string>, sep: char)
    requires |pieces| >= 2
    ensures Join(pieces, sep) == pieces[0] + [sep] + Join(pieces[1..], sep)
  {
  }

  lemma {:induction false} JoinSplit(s: string, sep: char)
    ensures Join(Split(s, sep), sep) == s
  {
    if s != [] {
      var rest := Split(s[1..], sep);
      JoinSplit(s[1..], sep);
      if s[0] == sep {
        assert ([""] + rest)[1..] == rest;
      } else {
        var pieces := [[s[0]] + rest[0]] + rest[1..];
        if |rest| > 1 {
          assert pieces[1..] == rest[1..];
          assert Join(rest, sep) == rest[0] + [sep] + Join(rest[1..], sep);
        }
      }
    }
  }

  lemma {:induction false} SplitJoin(pieces: seq<string>, sep: char)
    requires |pieces| > 0
    requires forall i :: 0 <= i < |pieces| ==> sep !in pieces[i]
    ensures Split(Join(pieces, sep), sep) == pieces
  {
    if |pieces| == 1 {
      SplitPiece(pieces[0], sep);
    } else {
      SplitJoin(pieces[1..], sep);
      SplitPrefix(pieces[0], Join(pieces[1..], sep), sep);
      assert [pieces[0]] + pieces[1..] == pieces;
    }
  }

  lemma {:induction false} SplitPiece(p: string, sep: char)
    requires sep !in p
    ensures Split(p, sep) == [p]
  {
    if p != [] {
      SplitPiece(p[1..], sep);
      assert [p[0]] + p[1..] == p;
    }
  }

  lemma {:induction false} SplitPrefix(p: string, t: string, sep: char)
    requires sep !in p
    ensures Split(p + [sep] + t, sep) == [p] + Split(t, sep)
  {
    if p == [] {
      assert p + [sep] + t == [sep] + t;
      assert ([sep] + t)[1..] == t;
    } else {
      assert (p + [sep] + t)[1..] == p[1..] + [sep] + t;
      SplitPrefix(p[1..], t, sep);
      assert [p[0]] + p[1..] == p;
    }
  }

  /** Splitting two separator-free pieces joined by the separator gives them back. */
  lemma SplitTwo(p: string, t: string, sep: char)
    requires sep !in p && sep !in t
    ensures Split(p + [sep] + t, sep) == [p, t]
  {
    SplitPrefix(p, t, sep);
    SplitPiece(t, sep);
  }

  lemma MulMonotone(a: nat, b: nat, w: nat)
    requires a <= b
    ensures a * w <= b * w
  {
  }

  lemma MulSucc(a: nat, w: nat)
    ensures (a + 1) * w == a * w + w
  {
  }

  lemma DivMod(x: nat, w: nat)
    requires w > 0
    ensures x == (x / w) * w + x % w && x % w < w
  {
  }

  /** x / w is the unique q with x == q * w + r and 0 <= r < w, and x % w is that r. */
  lemma DivUnique(x: nat, w: nat, q: nat, r: nat)
    requires w > 0 && x == q * w + r && r < w
    ensures x / w == q && x % w == r
  {
    var q', r' := x / w, x % w;
    assert x == q' * w + r';
    if q' < q {
      MulMonotone(q' + 1, q, w);
    } else if q' > q {
      MulMonotone(q + 1, q', w);
    }
  }

  /** What one fetch attempt produced, as reported by the network oracle: either
      the promise was rejected (a transport error, or a URL fetch cannot parse),
      or a response arrived with a status and possibly no body. */
  datatype Attempt = Rejected | Reply(status: int, body: Option<Bytes>)

  /** The status range Response.ok tests: 200-299. */
  predicate OkStatus(status: int)
  {
    200 <= status <= 299
  }

  /** Response.ok of one attempt. */
  predicate IsOk(a: Attempt)
  {
    a.Reply? && OkStatus(a.status)
  }
}
