/** The small header checks of the request handler: storing a mirror list
    for a video id, and the single-URL relay. Header values are None when the
    header is absent; JavaScript treats both None and "" as false. */
module RequestChecks {
  import opened Common

  predicate Truthy(header: Option<string>)
  {
    header.Some? && header.value != ""
  }

  /** The x-bvid branch: it is taken only when x-bvid is truthy; it rejects a
      missing x-video-links and otherwise stores the '|'-separated list. */
  datatype StoreDecision = NotThisBranch | StoreRejected | Store(key: string, links: seq<string>)

  function StoreLinks(bvid: Option<string>, videoLinks: Option<string>): StoreDecision
  {
    if !Truthy(bvid) then NotThisBranch
    else if videoLinks.None? then StoreRejected
    else
      var links := Split(videoLinks.value, '|');
      if |links| == 0 then StoreRejected
      else Store(bvid.value, links)
  }

  /** With x-bvid present, the request is rejected exactly when x-video-links is
      missing; otherwise the stored list joins back to the header and is never empty
      (split always yields a piece, so the emptiness test cannot fire). */
  lemma StoreLinksDecided(bvid: string, videoLinks: Option<string>)
    requires bvid != ""
    ensures StoreLinks(Some(bvid), videoLinks) == StoreRejected <==> videoLinks.None?
    ensures videoLinks.Some? ==>
              var d := StoreLinks(Some(bvid), videoLinks);
              d.Store? && d.key == bvid && |d.links| > 0 && Join(d.links, '|') == videoLinks.value
  {
    if videoLinks.Some? {
      JoinSplit(videoLinks.value, '|');
    }
  }

  /** A request that is sent on by the relay. */
  datatype RelayRequest = RelayRequest(url: string, verb: string, body: Option<string>)

  datatype RelayDecision = RelayRejected | Forward(request: RelayRequest)

  /** The x-url branch: no target or an empty one is a 400; the method defaults
      to GET when x-method is missing or empty; a GET may not carry a body. */
  function Relay(url: Option<string>, xMethod: Option<string>, xBody: Option<string>): RelayDecision
  {
    if !Truthy(url) then RelayRejected
    else
      var verb := if Truthy(xMethod) then xMethod.value else "GET";
      if Truthy(xBody) && verb == "GET" then RelayRejected
      else Forward(RelayRequest(url.value, verb, xBody))
  }

  /** With a target URL, the relay rejects exactly a non-empty body sent with the
      GET method, given explicitly or by default; every other combination is
      forwarded with the target, the method and the body unchanged. */
  lemma RelayBodyRule(url: string, xMethod: Option<string>, xBody: Option<string>)
    requires url != ""
    ensures Relay(Some(url), xMethod, xBody) == RelayRejected <==>
              Truthy(xBody) && (!Truthy(xMethod) || xMethod.value == "GET")
    ensures Relay(Some(url), xMethod, xBody).Forward? ==>
              Relay(Some(url), xMethod, xBody).request ==
                RelayRequest(url, if Truthy(xMethod) then xMethod.value else "GET", xBody)
  {
  }

  /** The method comparison is exact: a lower-case "get" with a body is forwarded. */
  lemma LowerCaseGetForwarded(url: string, body: string)
    requires url != "" && body != ""
    ensures Relay(Some(url), Some("get"), Some(body)).Forward?
  {
  }
}
