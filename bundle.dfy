/** The bundle request: every URL of the '|'-separated x-urls list is fetched
    with up to three attempts, each result is read into a (status, length, body)
    outcome, and the outcomes are serialised into one payload in list order. */
module Bundle {
  import opened Common
  import opened RangeSpec
  import opened BundleFormat
  import RequestChecks

  /** Attempts per item. */
  const RetryCount: nat := 3

  /** What one fetch call produced: its promise rejected, or a response arrived
      whose body stream yields the listed chunks (None: the response has no body).
      Unlike Common.Attempt, which holds a body read whole by arrayBuffer(), the
      body is kept as the chunks the reader yields, since the read phase reads
      the stream chunk by chunk and sums their lengths. */
  datatype Fetched = FetchFailed | Response(status: int, stream: Option<seq<Bytes>>)

  /** Response.ok. */
  predicate Ok(f: Fetched)
  {
    f.Response? && OkStatus(f.status)
  }

  /** How the promise of one item settled. */
  datatype Settled = Fulfilled(response: Fetched) | RejectedItem

  /** The retry loop from attempt `retry` on, with attempt k answered by net(k):
      the settled value and the number of attempts made. A rejected fetch is not
      caught inside the loop, so it rejects the item at once. */
  function RetryFrom(net: nat -> Fetched, retry: nat): (Settled, nat)
    requires retry <= RetryCount
    decreases RetryCount - retry
  {
    if retry == RetryCount then (RejectedItem, retry)
    else if net(retry).FetchFailed? then (RejectedItem, retry + 1)
    else if Ok(net(retry)) then (Fulfilled(net(retry)), retry + 1)
    else RetryFrom(net, retry + 1)
  }

  function FetchItem(net: nat -> Fetched): (Settled, nat)
  {
    RetryFrom(net, 0)
  }

  /** The per-item loop: up to RetryCount GETs, returning the first ok response. */
  method FetchWithRetry(net: nat -> Fetched) returns (settled: Settled, attempts: nat)
    ensures (settled, attempts) == FetchItem(net)
  {
    var retry := 0;
    while retry < RetryCount
      invariant retry <= RetryCount
      invariant RetryFrom(net, retry) == FetchItem(net)
      decreases RetryCount - retry
    {
      var response := net(retry);
      if response.FetchFailed? {
        return RejectedItem, retry + 1;
      }
      if Ok(response) {
        return Fulfilled(response), retry + 1;
      }
      retry := retry + 1;
    }
    return RejectedItem, retry;
  }

  /** The loop stops at the first ok response or the first rejected fetch, and
      otherwise after RetryCount non-ok responses; it is fulfilled exactly when
      the last attempt was ok, and only with that response. */
  lemma {:induction false} RetryFromStops(net: nat -> Fetched, retry: nat)
    requires retry < RetryCount
    ensures var (s, n) := RetryFrom(net, retry);
      && retry < n <= RetryCount
      && (forall k :: retry <= k < n - 1 ==> net(k).Response? && !Ok(net(k)))
      && (s.Fulfilled? <==> Ok(net(n - 1)))
      && (s.Fulfilled? ==> s.response == net(n - 1))
      && (s.RejectedItem? ==> net(n - 1).FetchFailed? || n == RetryCount)
    decreases RetryCount - retry
  {
    if net(retry).Response? && !Ok(net(retry)) && retry + 1 < RetryCount {
      RetryFromStops(net, retry + 1);
    }
  }

  /** A transport error on the first attempt rejects the item with no retry. */
  lemma RejectionNotRetried(net: nat -> Fetched)
    requires net(0).FetchFailed?
    ensures FetchItem(net) == (RejectedItem, 1)
  {
  }

  /** Three non-ok responses in a row reject the item after exactly three attempts. */
  lemma ThreeBadStatusesReject(net: nat -> Fetched)
    requires forall k :: 0 <= k < RetryCount ==> net(k).Response? && !Ok(net(k))
    ensures FetchItem(net) == (RejectedItem, RetryCount)
  {
    RetryFromStops(net, 0);
    var n := FetchItem(net).1;
    assert net(n - 1).Response? && !Ok(net(n - 1));
  }

  /** Reads a body stream to its end: the chunks are collected and their
      lengths summed into receivedLength, and the blob is the chunks in order. */
  method ReadBody(stream: seq<Bytes>) returns (receivedLength: nat, body: Bytes)
    ensures body == Flatten(stream) && receivedLength == |body|
  {
    var chunks: seq<Bytes> := [];
    receivedLength := 0;
    for k := 0 to |stream|
      invariant chunks == stream[..k] && receivedLength == TotalLength(chunks)
    {
      chunks := chunks + [stream[k]];
      receivedLength := receivedLength + |stream[k]|;
      assert chunks[..|chunks| - 1] == stream[..k];
    }
    assert stream[..|stream|] == stream;
    body := Flatten(chunks);
    FlattenLength(chunks);
  }

  /** The outcome of one item: 0 and no body unless the promise was fulfilled
      with an ok response; an ok response without a body is a success of length 0. */
  function OutcomeOf(s: Settled): Outcome
  {
    match s
    case RejectedItem => Outcome(false, 0, [])
    case Fulfilled(r) =>
      if !Ok(r) then Outcome(false, 0, [])
      else if r.stream.None? then Outcome(true, 0, [])
      else Outcome(true, TotalLength(r.stream.value), Flatten(r.stream.value))
  }

  /** The status flag is 1 exactly for an ok response; a failure has length 0 and
      no body; the length is always the body's, a streamed body is its chunks,
      and an ok response without a body has length 0. */
  lemma OutcomeShape(s: Settled)
    ensures OutcomeOf(s).success <==> s.Fulfilled? && Ok(s.response)
    ensures !OutcomeOf(s).success ==> OutcomeOf(s).length == 0 && OutcomeOf(s).body == []
    ensures OutcomeOf(s).length == |OutcomeOf(s).body|
    ensures s.Fulfilled? && Ok(s.response) && s.response.stream.Some? ==>
              OutcomeOf(s).body == Flatten(s.response.stream.value)
    ensures s.Fulfilled? && Ok(s.response) && s.response.stream.None? ==>
              OutcomeOf(s).length == 0 && OutcomeOf(s).body == []
  {
    if s.Fulfilled? && Ok(s.response) && s.response.stream.Some? {
      FlattenLength(s.response.stream.value);
    }
  }

  /** The x-ranges header: absent, not valid JSON (the parse error is swallowed
      and the items carry no range), or parsed. */
  datatype RangesHeader = NoRanges | Unparsable | Parsed(ranges: seq<RangeSet>)

  /** The GET one item sends: its URL and, when it has ranges, a Range header. */
  datatype ItemRequest = ItemRequest(url: string, range: Option<string>)

  datatype BundleReply = BadRequest | Bundle(payload: Bytes)

  /** The range-set of item i; none when the header was absent or unparsable. */
  function ItemRanges(header: RangesHeader, i: nat): RangeSet
  {
    if header.Parsed? && i < |header.ranges| then header.ranges[i] else []
  }

  /** The answers item i's attempts get. */
  function ItemNet(net: (nat, nat) -> Fetched, i: nat): nat -> Fetched
  {
    (k: nat) => net(i, k)
  }

  /** The request is served when x-urls is non-empty and, if x-ranges parsed,
      it has one valid range-set per URL; otherwise it is a 400. */
  predicate Accepts(urls: Option<string>, header: RangesHeader)
  {
    RequestChecks.Truthy(urls) &&
    (header.Parsed? ==> RangesValid(header.ranges, |Split(urls.value, '|')|))
  }

  function ItemRequests(urlList: seq<string>, header: RangesHeader): (requests: seq<ItemRequest>)
    ensures |requests| == |urlList|
    ensures forall i :: 0 <= i < |urlList| ==>
              requests[i] == ItemRequest(urlList[i], RangeHeader(ItemRanges(header, i)))
  {
    seq(|urlList|, i requires 0 <= i < |urlList| => ItemRequest(urlList[i], RangeHeader(ItemRanges(header, i))))
  }

  /** Item i's outcome, in the position of its URL. */
  function ItemOutcomes(n: nat, net: (nat, nat) -> Fetched): (outcomes: seq<Outcome>)
    ensures |outcomes| == n
    ensures forall i :: 0 <= i < n ==> outcomes[i] == OutcomeOf(FetchItem(ItemNet(net, i)).0)
  {
    seq(n, i requires 0 <= i < n => OutcomeOf(FetchItem(ItemNet(net, i)).0))
  }

  /** What the whole request answers. */
  function BundleOf(urls: Option<string>, header: RangesHeader, net: (nat, nat) -> Fetched): BundleReply
  {
    if !Accepts(urls, header) then BadRequest
    else Bundle(Encode(ItemOutcomes(|Split(urls.value, '|')|, net)))
  }

  /** The bundle branch of the handler: checks x-urls and x-ranges, fetches
      every item with retries, reads the results in item order and serialises
      them; also returns the requests sent and each item's attempt count. */
  method HandleUrls(urls: Option<string>, header: RangesHeader, net: (nat, nat) -> Fetched)
    returns (reply: BundleReply, requests: seq<ItemRequest>, attempts: seq<nat>)
    ensures reply == BundleOf(urls, header, net)
    ensures reply.BadRequest? ==> requests == [] && attempts == []
    ensures reply.Bundle? ==>
              var urlList := Split(urls.value, '|');
              && requests == ItemRequests(urlList, header)
              && |attempts| == |urlList|
              && forall i :: 0 <= i < |urlList| ==> attempts[i] == FetchItem(ItemNet(net, i)).1
  {
    if !RequestChecks.Truthy(urls) {
      return BadRequest, [], [];
    }
    var urlList := Split(urls.value, '|');
    if header.Parsed? {
      var ok := ValidateRanges(header.ranges, |urlList|);
      if !ok {
        return BadRequest, [], [];
      }
    }
    var responses;
    responses, requests, attempts := FetchAll(urlList, header, net);
    var status, responseBodyLengths, responseBodies := ReadOutcomes(responses);
    ghost var outcomes := ItemOutcomes(|urlList|, net);
    assert Outcomes(responses) == outcomes;
    var payload := EncodeBundle(status, responseBodyLengths, responseBodies);
    reply := Bundle(payload);
  }

  /** The fetch phase: one retried GET per URL, in list order, each carrying
      the Range header of its own range-set. */
  method FetchAll(urlList: seq<string>, header: RangesHeader, net: (nat, nat) -> Fetched)
    returns (responses: seq<Settled>, requests: seq<ItemRequest>, attempts: seq<nat>)
    ensures requests == ItemRequests(urlList, header)
    ensures |responses| == |urlList| && |attempts| == |urlList|
    ensures forall i :: 0 <= i < |urlList| ==> (responses[i], attempts[i]) == FetchItem(ItemNet(net, i))
  {
    responses, requests, attempts := [], [], [];
    for index := 0 to |urlList|
      invariant |responses| == index && |attempts| == index
      invariant requests == ItemRequests(urlList, header)[..index]
      invariant forall i :: 0 <= i < index ==>
                  (responses[i], attempts[i]) == FetchItem(ItemNet(net, i))
    {
      var range := RangeHeader(ItemRanges(header, index));
      requests := requests + [ItemRequest(urlList[index], range)];
      var settled, n := FetchWithRetry(ItemNet(net, index));
      responses := responses + [settled];
      attempts := attempts + [n];
    }
    assert requests == ItemRequests(urlList, header)[..|urlList|];
  }

  /** The outcome of every settled item, in item order. */
  function Outcomes(settled: seq<Settled>): (outcomes: seq<Outcome>)
    ensures |outcomes| == |settled|
    ensures forall k :: 0 <= k < |settled| ==> outcomes[k] == OutcomeOf(settled[k])
  {
    seq(|settled|, k requires 0 <= k < |settled| => OutcomeOf(settled[k]))
  }

  /** The read phase: a status, a length and a body per item, in item order;
      an ok response's stream is read to its end. */
  method ReadOutcomes(responses: seq<Settled>)
    returns (status: seq<bool>, responseBodyLengths: seq<nat>, responseBodies: seq<Bytes>)
    ensures status == Statuses(Outcomes(responses))
    ensures responseBodyLengths == Lengths(Outcomes(responses))
    ensures responseBodies == BodiesOf(Outcomes(responses))
  {
    ghost var outcomes := Outcomes(responses);
    status, responseBodyLengths, responseBodies := [], [], [];
    for i := 0 to |responses|
      invariant |status| == i && |responseBodyLengths| == i && |responseBodies| == i
      invariant forall k :: 0 <= k < i ==>
                  && status[k] == outcomes[k].success
                  && responseBodyLengths[k] == outcomes[k].length
                  && responseBodies[k] == outcomes[k].body
    {
      var res := responses[i];
      if res.RejectedItem? || !Ok(res.response) {
        status := status + [false];
        responseBodyLengths := responseBodyLengths + [0];
        responseBodies := responseBodies + [[]];
      } else {
        status := status + [true];
        if res.response.stream.None? {
          responseBodyLengths := responseBodyLengths + [0];
          responseBodies := responseBodies + [[]];
        } else {
          var receivedLength, body := ReadBody(res.response.stream.value);
          FlattenLength(res.response.stream.value);
          responseBodyLengths := responseBodyLengths + [receivedLength];
          responseBodies := responseBodies + [body];
        }
      }
    }
  }

  /** A missing or empty x-urls, a count mismatch or a bad pair is a 400, and
      in those cases nothing is fetched. */
  lemma RejectedBeforeFetching(urls: Option<string>, header: RangesHeader, net: (nat, nat) -> Fetched)
    ensures BundleOf(urls, header, net).BadRequest? <==>
              !RequestChecks.Truthy(urls) ||
              (header.Parsed? && !RangesValid(header.ranges, |Split(urls.value, '|')|))
  {
  }

  /** Every response body fits the 32-bit length table. */
  ghost predicate BodiesFit(net: (nat, nat) -> Fetched)
  {
    forall i: nat, k: nat :: net(i, k).Response? && net(i, k).stream.Some? ==>
      TotalLength(net(i, k).stream.value) < U32Modulus
  }

  /** A client that knows the URL count reads back, at position i, a status of
      1 exactly when item i ended in an ok response, and then that response's
      body and its length (0 when the response had no body); a failed item
      reads back as 0 with no body. */
  lemma ClientReadsItems(urls: Option<string>, header: RangesHeader, net: (nat, nat) -> Fetched, i: nat)
    requires Accepts(urls, header) && BodiesFit(net)
    requires i < |Split(urls.value, '|')|
    ensures var n := |Split(urls.value, '|')|;
      var decoded := Decode(n, BundleOf(urls, header, net).payload);
      var s := FetchItem(ItemNet(net, i)).0;
      && decoded.Some? && |decoded.value| == n
      && (decoded.value[i].success <==> s.Fulfilled? && Ok(s.response))
      && decoded.value[i].length == |decoded.value[i].body|
      && (!decoded.value[i].success ==> decoded.value[i].body == [])
      && (decoded.value[i].success && s.response.stream.Some? ==>
            decoded.value[i].body == Flatten(s.response.stream.value))
      && (decoded.value[i].success && s.response.stream.None? ==>
            decoded.value[i].length == 0 && decoded.value[i].body == [])
  {
    var n := |Split(urls.value, '|')|;
    var outcomes := ItemOutcomes(n, net);
    forall j | 0 <= j < n
      ensures Describable(outcomes[j])
    {
      var s := FetchItem(ItemNet(net, j)).0;
      OutcomeShape(s);
      if s.Fulfilled? && Ok(s.response) && s.response.stream.Some? {
        RetryFromStops(ItemNet(net, j), 0);
        FlattenLength(s.response.stream.value);
        var k := FetchItem(ItemNet(net, j)).1 - 1;
        assert s.response == net(j, k);
      }
    }
    DecodeEncode(outcomes);
    OutcomeShape(FetchItem(ItemNet(net, i)).0);
  }

  /** The Range header of an item with a validated, non-empty range-set reads
      back as exactly its pairs; an item without ranges sends no Range header. */
  lemma ItemRangeHeaders(urls: Option<string>, header: RangesHeader, i: nat)
    requires Accepts(urls, header) && i < |Split(urls.value, '|')|
    ensures var request := ItemRequests(Split(urls.value, '|'), header)[i];
      && (|ItemRanges(header, i)| == 0 <==> request.range.None?)
      && (request.range.Some? ==>
            ParseRangeHeader(request.range.value) == Some(Meanings(ItemRanges(header, i))))
  {
    var rangeSet := ItemRanges(header, i);
    if |rangeSet| > 0 {
      assert header.Parsed?;
      RangeHeaderRoundTrip(rangeSet);
    }
  }

  /** The header src/index.ts:147 builds for the same item: none without
      pairs and the same header for one pair; for two or more pairs a value that
      is not a bytes-range, and so not the header the model sends. */
  lemma ItemRangeHeadersAsWritten(urls: Option<string>, header: RangesHeader, i: nat)
    requires Accepts(urls, header) && i < |Split(urls.value, '|')|
    ensures var rangeSet := ItemRanges(header, i);
      var request := ItemRequests(Split(urls.value, '|'), header)[i];
      && (|rangeSet| <= 1 ==> RangeHeaderAsWritten(rangeSet) == request.range)
      && (|rangeSet| >= 2 ==>
            && RangeHeaderAsWritten(rangeSet).Some?
            && ParseRangeHeader(RangeHeaderAsWritten(rangeSet).value) == None
            && RangeHeaderAsWritten(rangeSet) != request.range)
  {
    var rangeSet := ItemRanges(header, i);
    if |rangeSet| == 1 {
      assert rangeSet == [rangeSet[0]];
      SinglePairAgrees(rangeSet[0]);
    } else if |rangeSet| >= 2 {
      assert header.Parsed?;
      AsWrittenMalformed(rangeSet);
      RangeHeaderRoundTrip(rangeSet);
    }
  }

  /** An item whose length and body wait for its stream to be read. */
  predicate Streamed(s: Settled)
  {
    s.Fulfilled? && Ok(s.response) && s.response.stream.Some?
  }

  /** The outcomes of the items with Streamed(s) == streamed, in item order. */
  function Pushed(settled: seq<Settled>, streamed: bool): seq<Outcome>
  {
    if settled == [] then []
    else (if Streamed(settled[0]) == streamed then [OutcomeOf(settled[0])] else [])
         + Pushed(settled[1..], streamed)
  }

  /** The read phase as written pushes the status of every item, and the length
      and body of every unstreamed item, synchronously in item order; a streamed
      item's length and body are pushed from a later callback, after all of those.
      This is the order when the streamed reads finish in item order. */
  function PushOrderAsWritten(settled: seq<Settled>): seq<Outcome>
  {
    Pushed(settled, false) + Pushed(settled, true)
  }

  lemma {:induction false} PushedCount(settled: seq<Settled>)
    ensures |Pushed(settled, false)| + |Pushed(settled, true)| == |settled|
  {
    if settled != [] {
      PushedCount(settled[1..]);
    }
  }

  /** The payload index.ts builds from the pushes in that order. */
  function PayloadAsWritten(settled: seq<Settled>): Bytes
  {
    var order := PushOrderAsWritten(settled);
    Payload(seq(|settled|, k requires 0 <= k < |settled| => OutcomeOf(settled[k]).success),
            Lengths(order), BodiesOf(order))
  }

  /** Item 0 answers 200 with the body [1, 2] and item 1 fails. As written, the
      failure's length 0 is pushed first, so the client reads item 0 as an
      empty success and item 1 as a failure carrying item 0's bytes; with the
      outcomes kept in item position it reads them as they were. */
  lemma PushOrderMisattributes()
    ensures var settled := [Fulfilled(Response(200, Some([[1, 2]]))), RejectedItem];
      && Decode(2, PayloadAsWritten(settled)) == Some([Outcome(true, 0, []), Outcome(false, 2, [1, 2])])
      && Decode(2, Encode([OutcomeOf(settled[0]), OutcomeOf(settled[1])]))
           == Some([Outcome(true, 2, [1, 2]), Outcome(false, 0, [])])
  {
    var settled := [Fulfilled(Response(200, Some([[1, 2]]))), RejectedItem];
    var chunks: seq<Bytes> := [[1, 2]];
    assert chunks[..0] == [];
    assert Flatten(chunks) == [1, 2];
    assert TotalLength(chunks) == 2;
    var item0 := Outcome(true, 2, [1, 2]);
    var failed := Outcome(false, 0, []);
    assert OutcomeOf(settled[0]) == item0;
    assert Pushed(settled[1..], false) == [failed];
    assert Pushed(settled, false) == [failed];
    assert Pushed(settled[1..], true) == [];
    assert Pushed(settled, true) == [item0];
    var order := [failed, item0];
    assert PushOrderAsWritten(settled) == order;
    var asRead := [Outcome(true, 0, []), Outcome(false, 2, [1, 2])];
    assert seq(2, k requires 0 <= k < 2 => OutcomeOf(settled[k]).success) == Statuses(asRead);
    assert Lengths(order) == Lengths(asRead);
    assert BodiesOf(order) == BodiesOf(asRead);
    assert PayloadAsWritten(settled) == Encode(asRead);
    DecodeEncode(asRead);
    DecodeEncode([item0, failed]);
  }
}
