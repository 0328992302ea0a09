/** getIdType: classify a video identifier by its shape, in the priority
    order BV id, AV id, season ("ss"), episode ("ep"). */
module VideoId {
  import opened Common

  datatype IdType = Bvid | Avid | Season | Episode | Unknown

  /** The regular-expression class [a-zA-Z0-9]. */
  predicate IsAsciiAlnum(c: char)
  {
    'a' <= c <= 'z' || 'A' <= c <= 'Z' || IsDigit(c)
  }

  predicate StartsWith(s: string, prefix: string)
  {
    |prefix| <= |s| && s[..|prefix|] == prefix
  }

  /** /^BV[a-zA-Z0-9]{10}$/: "BV" and then exactly ten letters or digits. */
  predicate IsValidBvid(id: string)
  {
    |id| == 12 && StartsWith(id, "BV") && forall i :: 2 <= i < 12 ==> IsAsciiAlnum(id[i])
  }

  /** /^AV\d{1,15}$/: "AV" and then one to fifteen decimal digits. */
  predicate IsValidAvid(id: string)
  {
    3 <= |id| <= 17 && StartsWith(id, "AV") && forall i :: 2 <= i < |id| ==> IsDigit(id[i])
  }

  function GetIdType(id: string): IdType
  {
    if IsValidBvid(id) then Bvid
    else if IsValidAvid(id) then Avid
    else if StartsWith(id, "ss") then Season
    else if StartsWith(id, "ep") then Episode
    else Unknown
  }

  /** The four shapes are mutually exclusive, so the classification does not
      depend on the order of the checks: each class holds exactly the ids of its shape. */
  lemma ShapesExclusive(id: string)
    ensures GetIdType(id) == Bvid <==> IsValidBvid(id)
    ensures GetIdType(id) == Avid <==> IsValidAvid(id)
    ensures GetIdType(id) == Season <==> StartsWith(id, "ss")
    ensures GetIdType(id) == Episode <==> StartsWith(id, "ep")
    ensures GetIdType(id) == Unknown <==>
              !IsValidBvid(id) && !IsValidAvid(id) && !StartsWith(id, "ss") && !StartsWith(id, "ep")
  {
    if StartsWith(id, "BV") || StartsWith(id, "AV") || StartsWith(id, "ss") || StartsWith(id, "ep") {
      assert id[..2] == [id[0], id[1]];
    }
  }

  /** "BV" followed by any ten ASCII letters or digits is a BV id. */
  lemma BvidShape(tail: string)
    requires |tail| == 10 && forall i :: 0 <= i < 10 ==> IsAsciiAlnum(tail[i])
    ensures GetIdType("BV" + tail) == Bvid
  {
    var id := "BV" + tail;
    assert id[..2] == "BV";
    forall i | 2 <= i < 12
      ensures IsAsciiAlnum(id[i])
    {
      assert id[i] == tail[i - 2];
    }
  }

  /** "AV" followed by 1 to 15 digits is an AV id; with 16 or more digits it is
      nothing at all. */
  lemma AvidDigitCount(digits: string)
    requires |digits| > 0 && forall i :: 0 <= i < |digits| ==> IsDigit(digits[i])
    ensures |digits| <= 15 ==> GetIdType("AV" + digits) == Avid
    ensures |digits| > 15 ==> GetIdType("AV" + digits) == Unknown
  {
    var id := "AV" + digits;
    assert id[..2] == "AV";
    assert id[0] == 'A';
    forall i | 2 <= i < |id|
      ensures IsDigit(id[i])
    {
      assert id[i] == digits[i - 2];
    }
    ShapesExclusive(id);
  }

  /** Prefixes are case-sensitive: a lower-case "bv" id is not a BV id. */
  lemma LowerCaseBvUnknown(tail: string)
    ensures GetIdType("bv" + tail) == Unknown
  {
    var id := "bv" + tail;
    assert id[0] == 'b';
    ShapesExclusive(id);
  }
}
