/** The response-code switch of BiliBilifetch: the `code` field of an upstream
    JSON reply decides whether its `data` is returned or which error is thrown. */
module ApiCode {
  import opened Common

  datatype CodeOutcome = ReturnData | BadRequest | NotFound | RiskControl | AreaLimit | Unexpected

  function Abs(x: int): nat
  {
    if x < 0 then -x else x
  }

  /** The switch: the raw code is compared with 0 and 200, the other cases use
      Math.abs(code || 0), so a missing code is treated as 0 there. */
  function Classify(code: Option<int>): CodeOutcome
  {
    if code == Some(0) || code == Some(200) then ReturnData
    else
      var k := Abs(if code.Some? then code.value else 0);
      if k == 400 then BadRequest
      else if k == 404 then NotFound
      else if k == 352 || k == 412 then RiskControl
      else if k == 10403 || k == 688 || k == 6002003 then AreaLimit
      else Unexpected
  }

  /** Only codes 0 and 200 return the data. */
  lemma DataOnlyOnSuccess(code: Option<int>)
    ensures Classify(code) == ReturnData <==> code == Some(0) || code == Some(200)
  {
  }

  /** Error codes are classified by magnitude: negating a code other than the
      success codes does not change its class. */
  lemma SignIgnoredForErrors(c: int)
    requires c != 0 && c != 200 && c != -200
    ensures Classify(Some(-c)) == Classify(Some(c))
  {
  }

  /** The success test uses the raw code, so -200 is not a success while 200 is. */
  lemma NegatedSuccessIsUnexpected()
    ensures Classify(Some(200)) == ReturnData
    ensures Classify(Some(-200)) == Unexpected
  {
  }

  /** A reply without a code matches no case and is an unexpected error. */
  lemma MissingCodeUnexpected()
    ensures Classify(None) == Unexpected
  {
  }

  /** The error classes by magnitude, k = |code|. */
  lemma ErrorClasses(c: int)
    requires c != 0 && c != 200
    ensures Classify(Some(c)) == BadRequest <==> Abs(c) == 400
    ensures Classify(Some(c)) == NotFound <==> Abs(c) == 404
    ensures Classify(Some(c)) == RiskControl <==> Abs(c) in {352, 412}
    ensures Classify(Some(c)) == AreaLimit <==> Abs(c) in {10403, 688, 6002003}
  {
  }
}
