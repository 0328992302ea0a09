/** The x-ranges part of a bundle request: validation of the range-sets
    against the URL list, and the Range header each item's fetch carries. */
module RangeSpec {
  import opened Common

  /** One JSON pair [start, end]; end = -1 asks for the rest of the resource. */
  datatype ByteRange = ByteRange(start: int, end: int)

  type RangeSet = seq<ByteRange>

  /** The per-pair test of the nested loop: start >= 0 and end >= start. */
  predicate RangeOk(r: ByteRange)
  {
    !(r.start < 0 || r.end < r.start)
  }

  predicate RangesValid(ranges: seq<RangeSet>, urlCount: nat)
  {
    |ranges| == urlCount &&
    forall i, j :: 0 <= i < |ranges| && 0 <= j < |ranges[i]| ==> RangeOk(ranges[i][j])
  }

  /** The validation loop: false (a 400) on a count mismatch or on the first bad pair. */
  method ValidateRanges(ranges: seq<RangeSet>, urlCount: nat) returns (ok: bool)
    ensures ok <==> RangesValid(ranges, urlCount)
  {
    if |ranges| != urlCount {
      return false;
    }
    for i := 0 to |ranges|
      invariant forall i', j :: 0 <= i' < i && 0 <= j < |ranges[i']| ==> RangeOk(ranges[i'][j])
    {
      var rangeSet := ranges[i];
      for j := 0 to |rangeSet|
        invariant forall j' :: 0 <= j' < j ==> RangeOk(rangeSet[j'])
      {
        var range := rangeSet[j];
        if range.start < 0 || range.end < range.start {
          return false;
        }
      }
    }
    return true;
  }

  /** A validated pair never has end = -1: the open-ended form is always rejected by the validation. */
  lemma ValidatedNeverOpenEnded(ranges: seq<RangeSet>, urlCount: nat, i: nat, j: nat)
    requires RangesValid(ranges, urlCount) && i < |ranges| && j < |ranges[i]|
    ensures ranges[i][j].end != -1 && 0 <= ranges[i][j].start <= ranges[i][j].end
  {
  }

  /** The header text of one pair as index.ts writes it: "bytes=s-e", or "bytes=s-" when e = -1. */
  function PieceAsWritten(r: ByteRange): string
  {
    "bytes=" + IntToDecimal(r.start) + "-" + (if r.end == -1 then "" else IntToDecimal(r.end))
  }

  function MapPieces(rangeSet: RangeSet): (pieces: seq<string>)
    ensures |pieces| == |rangeSet|
    ensures forall k :: 0 <= k < |rangeSet| ==> pieces[k] == PieceAsWritten(rangeSet[k])
  {
    seq(|rangeSet|, k requires 0 <= k < |rangeSet| => PieceAsWritten(rangeSet[k]))
  }

  /** The Range header exactly as index.ts builds it: every pair carries its own
      "bytes=" and the pieces are joined with commas; no header for an empty set. */
  function RangeHeaderAsWritten(rangeSet: RangeSet): Option<string>
  {
    if |rangeSet| > 0 then Some(Join(MapPieces(rangeSet), ',')) else None
  }

  /** One range-spec of the range-set: "s-e", or "s-" when e = -1. */
  function RangeSpecOf(r: ByteRange): string
  {
    IntToDecimal(r.start) + "-" + (if r.end == -1 then "" else IntToDecimal(r.end))
  }

  function MapSpecs(rangeSet: RangeSet): (specs: seq<string>)
    ensures |specs| == |rangeSet|
    ensures forall k :: 0 <= k < |rangeSet| ==> specs[k] == RangeSpecOf(rangeSet[k])
  {
    if rangeSet == [] then [] else [RangeSpecOf(rangeSet[0])] + MapSpecs(rangeSet[1..])
  }

  /** The Range header in the bytes-range syntax of section 14.1.2 of RFC 9110:
      the unit once, then the comma-separated range-specs; no header for an empty set. */
  function RangeHeader(rangeSet: RangeSet): Option<string>
  {
    if |rangeSet| > 0 then Some("bytes=" + Join(MapSpecs(rangeSet), ',')) else None
  }

  /** A parsed int-range: first position and, unless open-ended, last position. */
  datatype IntRange = IntRange(first: nat, last: Option<nat>)

  /** One int-range of an RFC 9110 range-set: first-pos "-" [ last-pos ]. */
  function ParseIntRange(spec: string): Option<IntRange>
  {
    var halves := Split(spec, '-');
    if |halves| != 2 then None
    else match ParseDecimal(halves[0])
      case None => None
      case Some(first) =>
        if halves[1] == "" then Some(IntRange(first, None))
        else match ParseDecimal(halves[1])
          case None => None
          case Some(last) => Some(IntRange(first, Some(last)))
  }

  function ParseSpecs(specs: seq<string>): Option<seq<IntRange>>
  {
    if specs == [] then Some([])
    else match (ParseIntRange(specs[0]), ParseSpecs(specs[1..]))
      case (Some(r), Some(rest)) => Some([r] + rest)
      case _ => None
  }

  /** A reader of the header value: "bytes=" then a comma-separated list of
      int-ranges, with no whitespace (the form index.ts produces). */
  function ParseRangeHeader(value: string): Option<seq<IntRange>>
  {
    if |value| < 6 || value[..6] != "bytes=" then None
    else ParseSpecs(Split(value[6..], ','))
  }

  /** What a validated pair means as an int-range. */
  function Meaning(r: ByteRange): IntRange
    requires RangeOk(r)
  {
    IntRange(r.start, if r.end == -1 then None else Some(r.end))
  }

  function Meanings(rangeSet: RangeSet): seq<IntRange>
    requires forall k :: 0 <= k < |rangeSet| ==> RangeOk(rangeSet[k])
  {
    if rangeSet == [] then [] else [Meaning(rangeSet[0])] + Meanings(rangeSet[1..])
  }

  lemma DecimalHasNoSeparators(n: nat)
    ensures ',' !in NatToDecimal(n) && '-' !in NatToDecimal(n)
  {
  }

  lemma ParseRangeSpec(r: ByteRange)
    requires RangeOk(r)
    ensures ',' !in RangeSpecOf(r)
    ensures ParseIntRange(RangeSpecOf(r)) == Some(Meaning(r))
  {
    var first := NatToDecimal(r.start);
    var last := if r.end == -1 then "" else NatToDecimal(r.end);
    DecimalHasNoSeparators(r.start);
    DecimalHasNoSeparators(r.end);
    assert RangeSpecOf(r) == first + ['-'] + last;
    SplitPrefix(first, last, '-');
    SplitPiece(last, '-');
    ParseNatToDecimal(r.start);
    ParseNatToDecimal(r.end);
  }

  lemma {:induction false} ParseMappedSpecs(rangeSet: RangeSet)
    requires forall k :: 0 <= k < |rangeSet| ==> RangeOk(rangeSet[k])
    ensures ParseSpecs(MapSpecs(rangeSet)) == Some(Meanings(rangeSet))
  {
    if rangeSet != [] {
      var head, tail := rangeSet[0], rangeSet[1..];
      ParseRangeSpec(head);
      ParseMappedSpecs(tail);
      ParseSpecsCons(RangeSpecOf(head), MapSpecs(tail), Meaning(head), Meanings(tail));
    }
  }

  lemma ParseSpecsCons(spec: string, rest: seq<string>, r: IntRange, rs: seq<IntRange>)
    requires ParseIntRange(spec) == Some(r) && ParseSpecs(rest) == Some(rs)
    ensures ParseSpecs([spec] + rest) == Some([r] + rs)
  {
    assert ([spec] + rest)[1..] == rest;
  }

  /** Reading back the header of a validated, non-empty range-set gives exactly its pairs. */
  lemma RangeHeaderRoundTrip(rangeSet: RangeSet)
    requires |rangeSet| > 0 && forall k :: 0 <= k < |rangeSet| ==> RangeOk(rangeSet[k])
    ensures RangeHeader(rangeSet).Some?
    ensures ParseRangeHeader(RangeHeader(rangeSet).value) == Some(Meanings(rangeSet))
  {
    var specs := MapSpecs(rangeSet);
    forall k | 0 <= k < |specs|
      ensures ',' !in specs[k]
    {
      ParseRangeSpec(rangeSet[k]);
    }
    SplitJoin(specs, ',');
    var value := "bytes=" + Join(specs, ',');
    assert value[..6] == "bytes=" && value[6..] == Join(specs, ',');
    ParseMappedSpecs(rangeSet);
  }

  /** For a single pair the header index.ts writes is the RFC 9110 one. */
  lemma SinglePairAgrees(r: ByteRange)
    ensures RangeHeaderAsWritten([r]) == RangeHeader([r])
  {
    assert MapPieces([r]) == [PieceAsWritten(r)];
    assert MapSpecs([r]) == [RangeSpecOf(r)];
    assert PieceAsWritten(r) == "bytes=" + RangeSpecOf(r);
  }

  /** One piece as written is the unit, then the pair's range-spec; it has no comma. */
  lemma PieceShape(r: ByteRange)
    requires RangeOk(r)
    ensures PieceAsWritten(r) == "bytes=" + RangeSpecOf(r)
    ensures ',' !in RangeSpecOf(r) && ',' !in PieceAsWritten(r)
  {
    ParseRangeSpec(r);
  }

  /** The elements of the header index.ts writes for a validated, non-empty
      range-set are the pairs' range-specs, each prefixed with its own "bytes=". */
  lemma AsWrittenElements(rangeSet: RangeSet)
    requires |rangeSet| > 0 && forall k :: 0 <= k < |rangeSet| ==> RangeOk(rangeSet[k])
    ensures RangeHeaderAsWritten(rangeSet).Some?
    ensures Split(RangeHeaderAsWritten(rangeSet).value, ',') == MapPieces(rangeSet)
    ensures forall k :: 0 <= k < |rangeSet| ==> MapPieces(rangeSet)[k] == "bytes=" + RangeSpecOf(rangeSet[k])
  {
    var pieces := MapPieces(rangeSet);
    forall k | 0 <= k < |pieces|
      ensures ',' !in pieces[k] && pieces[k] == "bytes=" + RangeSpecOf(rangeSet[k])
    {
      PieceShape(rangeSet[k]);
    }
    SplitJoin(pieces, ',');
  }

  /** An element carrying the unit prefix is not an int-range. */
  lemma PrefixedSpecMalformed(r: ByteRange)
    requires RangeOk(r)
    ensures ParseIntRange("bytes=" + RangeSpecOf(r)) == None
  {
    var first := "bytes=" + NatToDecimal(r.start);
    var last := NatToDecimal(r.end);
    DecimalHasNoSeparators(r.start);
    DecimalHasNoSeparators(r.end);
    assert "bytes=" + RangeSpecOf(r) == first + ['-'] + last;
    SplitTwo(first, last, '-');
    assert !IsDigit(first[0]);
  }

  /** A list of elements whose second one is malformed does not parse. */
  lemma SecondElementSpoils(first: string, rest: seq<string>)
    requires rest != [] && ParseIntRange(rest[0]) == None
    ensures ParseSpecs([first] + rest) == None
  {
    assert ([first] + rest)[1..] == rest;
  }

  /** With two or more pairs, the header as written is the unit, the first
      range-spec, a comma and the remaining pieces joined. */
  lemma AsWrittenValue(rangeSet: RangeSet)
    requires |rangeSet| >= 2 && RangeOk(rangeSet[0])
    ensures RangeHeaderAsWritten(rangeSet)
         == Some("bytes=" + (RangeSpecOf(rangeSet[0]) + [','] + Join(MapPieces(rangeSet[1..]), ',')))
  {
    var pieces := MapPieces(rangeSet);
    var spec0, rest := RangeSpecOf(rangeSet[0]), Join(MapPieces(rangeSet[1..]), ',');
    JoinHead(pieces, ',');
    PieceShape(rangeSet[0]);
    assert MapPieces(rangeSet[1..]) == pieces[1..];
    assert pieces[0] == "bytes=" + spec0;
    ConcatAssoc("bytes=", spec0, [','], rest);
  }

  /** After the unit, the elements are the first range-spec and then the
      remaining pieces, each with its own "bytes=". */
  lemma AsWrittenTail(rangeSet: RangeSet)
    requires |rangeSet| >= 2 && forall k :: 0 <= k < |rangeSet| ==> RangeOk(rangeSet[k])
    ensures Split(RangeSpecOf(rangeSet[0]) + [','] + Join(MapPieces(rangeSet[1..]), ','), ',')
         == [RangeSpecOf(rangeSet[0])] + MapPieces(rangeSet[1..])
    ensures MapPieces(rangeSet[1..])[0] == "bytes=" + RangeSpecOf(rangeSet[1])
  {
    PieceShape(rangeSet[0]);
    AsWrittenElements(rangeSet[1..]);
    SplitPrefix(RangeSpecOf(rangeSet[0]), Join(MapPieces(rangeSet[1..]), ','), ',');
  }

  /** With two or more pairs the header as written is not a bytes-range at all:
      its second element starts with a second "bytes=". */
  lemma AsWrittenMalformed(rangeSet: RangeSet)
    requires |rangeSet| >= 2 && forall k :: 0 <= k < |rangeSet| ==> RangeOk(rangeSet[k])
    ensures RangeHeaderAsWritten(rangeSet).Some?
    ensures ParseRangeHeader(RangeHeaderAsWritten(rangeSet).value) == None
  {
    var tail := RangeSpecOf(rangeSet[0]) + [','] + Join(MapPieces(rangeSet[1..]), ',');
    AsWrittenValue(rangeSet);
    ConcatParts("bytes=", tail);
    AsWrittenTail(rangeSet);
    PrefixedSpecMalformed(rangeSet[1]);
    SecondElementSpoils(RangeSpecOf(rangeSet[0]), MapPieces(rangeSet[1..]));
  }

  lemma SmallDecimals()
    ensures IntToDecimal(0) == "0" && IntToDecimal(10) == "10"
    ensures IntToDecimal(20) == "20" && IntToDecimal(30) == "30"
  {
    assert NatToDecimal(10) == NatToDecimal(1) + [DigitChar(0)];
    assert NatToDecimal(20) == NatToDecimal(2) + [DigitChar(0)];
    assert NatToDecimal(30) == NatToDecimal(3) + [DigitChar(0)];
  }

  /** For the pairs [0, 10] and [20, 30], index.ts writes "bytes=0-10,bytes=20-30". */
  lemma TwoPairsAsWritten()
    ensures RangeHeaderAsWritten([ByteRange(0, 10), ByteRange(20, 30)]) == Some("bytes=0-10,bytes=20-30")
  {
    SmallDecimals();
    var rs := [ByteRange(0, 10), ByteRange(20, 30)];
    assert PieceAsWritten(rs[0]) == "bytes=0-10";
    assert PieceAsWritten(rs[1]) == "bytes=20-30";
    var pieces := MapPieces(rs);
    assert pieces == ["bytes=0-10", "bytes=20-30"];
    assert pieces[1..] == ["bytes=20-30"];
    assert Join(pieces, ',') == "bytes=0-10" + [','] + Join(["bytes=20-30"], ',');
    assert Join(["bytes=20-30"], ',') == "bytes=20-30";
    assert "bytes=0-10" + [','] + "bytes=20-30" == "bytes=0-10,bytes=20-30";
    assert RangeHeaderAsWritten(rs) == Some(Join(pieces, ','));
  }

  lemma PrefixedElementMalformed()
    ensures ParseIntRange("bytes=20-30") == None
  {
    SplitTwo("bytes=20", "30", '-');
    assert "bytes=20" + ['-'] + "30" == "bytes=20-30";
    assert !IsDigit("bytes=20"[0]);
  }

  lemma TwoPairsElements()
    ensures Split("0-10,bytes=20-30", ',') == ["0-10", "bytes=20-30"]
  {
    SplitTwo("0-10", "bytes=20-30", ',');
    assert "0-10" + [','] + "bytes=20-30" == "0-10,bytes=20-30";
  }

  /** That value is not a bytes-range: its second element "bytes=20-30" is not an int-range. */
  lemma TwoPairsValueMalformed()
    ensures ParseRangeHeader("bytes=0-10,bytes=20-30") == None
  {
    assert "bytes=0-10,bytes=20-30"[6..] == "0-10,bytes=20-30";
    TwoPairsElements();
    var elements := ["0-10", "bytes=20-30"];
    assert elements[1..] == ["bytes=20-30"];
    PrefixedElementMalformed();
    assert ParseSpecs(elements[1..]) == None;
  }

  /** The RFC 9110 header of the same pairs is "bytes=0-10,20-30". */
  lemma TwoPairsCorrected()
    ensures RangeHeader([ByteRange(0, 10), ByteRange(20, 30)]) == Some("bytes=0-10,20-30")
  {
    SmallDecimals();
    var rs := [ByteRange(0, 10), ByteRange(20, 30)];
    assert RangeSpecOf(rs[0]) == "0-10";
    assert RangeSpecOf(rs[1]) == "20-30";
    var specs := MapSpecs(rs);
    assert specs == ["0-10", "20-30"];
    assert specs[1..] == ["20-30"];
    assert Join(specs, ',') == "0-10" + [','] + Join(["20-30"], ',');
    assert Join(["20-30"], ',') == "20-30";
    assert "bytes=" + ("0-10" + [','] + "20-30") == "bytes=0-10,20-30";
    assert RangeHeader(rs) == Some("bytes=" + Join(specs, ','));
  }
}
