/** getDashPart: fetch one slice's byte range from a list of mirror URLs,
    moving to the next mirror after each failure and starting again from the
    primary, at most three passes in all. */
module DashPart {
  import opened Common
  import SlicePlan

  /** The number of full passes over the mirror list. */
  const RetryBudget: nat := 3

  /** The single-entry record {[index]: buffer} a slice download resolves to. */
  datatype Part = Part(index: nat, body: Bytes)

  /** One request as issued: the URL (None when the list had run dry, which
      `shift()` reports as undefined) and the byte range its Range header names. */
  datatype DashRequest = DashRequest(url: Option<string>, start: int, end: int)

  /** Why an attempt failed: the fetch was rejected, or the response was not ok. */
  datatype Failure = NetworkError | BadStatus(status: int)

  datatype DashResult = Done(part: Part) | AllUrlsFailed(last: Failure)

  /** The Range header of a slice request: bytes=start-end. */
  function RangeValue(start: int, end: int): string
  {
    "bytes=" + IntToDecimal(start) + "-" + IntToDecimal(end)
  }

  /** The Range header a request carries. */
  function RangeHeaderOf(request: DashRequest): string
  {
    RangeValue(request.start, request.end)
  }

  /** One pass over the mirrors in list order; an empty list still makes one
      attempt per pass, on the undefined URL that `shift()` returns. */
  function Pass(urls: seq<string>): (pass: seq<Option<string>>)
    ensures |pass| == if urls == [] then 1 else |urls|
  {
    if urls == [] then [None] else seq(|urls|, i requires 0 <= i < |urls| => Some(urls[i]))
  }

  /** The URL tried at every step when every attempt fails: RetryBudget passes in a row. */
  function Schedule(urls: seq<string>): (schedule: seq<Option<string>>)
  {
    Repeat(Pass(urls), RetryBudget)
  }

  /** n copies of s laid end to end. */
  function Repeat<T>(s: seq<T>, n: nat): (r: seq<T>)
    ensures |r| == n * |s|
  {
    if n == 0 then [] else s + Repeat(s, n - 1)
  }

  lemma {:induction false} RepeatAt<T>(s: seq<T>, n: nat, j: nat, pos: nat)
    requires j < n && pos < |s|
    ensures j * |s| + pos < n * |s| && Repeat(s, n)[j * |s| + pos] == s[pos]
  {
    if j > 0 {
      RepeatAt(s, n - 1, j - 1, pos);
      assert j * |s| == (j - 1) * |s| + |s|;
    }
  }

  /** The network, as an oracle: the answer to the k-th attempt of a download
      when that attempt sends the given request. */
  type Network = (DashRequest, nat) -> Attempt

  /** What attempt number k observes: fetching the undefined URL is rejected
      without reaching the network; any other request gets the oracle's answer. */
  function Observe(request: DashRequest, net: Network, k: nat): Attempt
  {
    if request.url.None? then Rejected else net(request, k)
  }

  /** `response.arrayBuffer()`: the body, empty when the response has none. */
  function BodyOf(a: Attempt): Bytes
  {
    if a.Reply? && a.body.Some? then a.body.value else []
  }

  function FailureOf(a: Attempt): Failure
  {
    if a.Reply? then BadStatus(a.status) else NetworkError
  }

  /** Every request of the schedule, each carrying the slice's Range header. */
  function Requests(urls: seq<string>, data: SlicePlan.Slice): (requests: seq<DashRequest>)
    ensures |requests| == |Schedule(urls)|
  {
    var schedule := Schedule(urls);
    seq(|schedule|, k requires 0 <= k < |schedule| => DashRequest(schedule[k], data.start, data.end))
  }

  /** The reference behaviour: send the scheduled requests from step k on and
      stop at the first ok response; the pair holds the result and the number
      of attempts made. */
  function RunFrom(requests: seq<DashRequest>, index: nat, net: Network, k: nat): (r: (DashResult, nat))
    requires k < |requests|
    decreases |requests| - k
  {
    var a := Observe(requests[k], net, k);
    if IsOk(a) then (Done(Part(index, BodyOf(a))), k + 1)
    else if k + 1 == |requests| then (AllUrlsFailed(FailureOf(a)), k + 1)
    else RunFrom(requests, index, net, k + 1)
  }

  /** The result of getDashPart, with the number of attempts it makes. */
  function DashOutcome(urls: seq<string>, data: SlicePlan.Slice, net: Network): (DashResult, nat)
  {
    RunFrom(Requests(urls, data), data.index, net, 0)
  }

  /** Step pos of pass number `pass` is step pass * |Pass(urls)| + pos of the
      schedule, and it is the last step exactly in the last position of the last pass. */
  lemma ScheduleAt(urls: seq<string>, data: SlicePlan.Slice, pass: nat, pos: nat, k: nat)
    requires pass < RetryBudget && pos < |Pass(urls)| && k == Offset(pass, |Pass(urls)|) + pos
    ensures k < |Schedule(urls)| && Schedule(urls)[k] == Pass(urls)[pos]
    ensures Requests(urls, data)[k] == DashRequest(Pass(urls)[pos], data.start, data.end)
    ensures k + 1 == |Schedule(urls)| <==> pass + 1 == RetryBudget && pos + 1 == |Pass(urls)|
  {
    var m := |Pass(urls)|;
    OffsetIsProduct(pass, m);
    RepeatAt(Pass(urls), RetryBudget, pass, pos);
    if pass + 1 < RetryBudget {
      MulMonotone(pass + 2, RetryBudget, m);
    }
  }

  /** pass * m, written as repeated addition so that a loop can advance it by m. */
  function Offset(pass: nat, m: nat): nat
  {
    if pass == 0 then 0 else Offset(pass - 1, m) + m
  }

  lemma {:induction false} OffsetIsProduct(pass: nat, m: nat)
    ensures Offset(pass, m) == pass * m
  {
    if pass > 0 {
      OffsetIsProduct(pass - 1, m);
    }
  }

  /** The mirrors still queued after position pos of a pass. */
  function Queued(urls: seq<string>, pos: nat): seq<string>
    requires pos < |Pass(urls)|
  {
    if urls == [] then [] else urls[pos + 1..]
  }

  /** The catch block: shift the next queued mirror, or, when the queue is empty,
      spend one retry and refill the queue from the full list; `exhausted` when no
      retry is left. Step (pass, pos) moves to (pass, pos + 1) or (pass + 1, 0). */
  method NextMirror(urls: seq<string>, urlList: seq<string>, retryCount: nat, ghost pass: nat, ghost pos: nat)
    returns (url: Option<string>, urlList': seq<string>, retryCount': nat, exhausted: bool)
    requires pass < RetryBudget && pos < |Pass(urls)|
    requires retryCount == RetryBudget - pass && urlList == Queued(urls, pos)
    ensures exhausted <==> pass + 1 == RetryBudget && pos + 1 == |Pass(urls)|
    ensures !exhausted && pos + 1 < |Pass(urls)| ==>
              url == Pass(urls)[pos + 1] && urlList' == Queued(urls, pos + 1) && retryCount' == retryCount
    ensures !exhausted && pos + 1 == |Pass(urls)| ==>
              url == Pass(urls)[0] && urlList' == Queued(urls, 0) && retryCount' == retryCount - 1
  {
    if |urlList| > 0 {
      return Some(urlList[0]), urlList[1..], retryCount, false;
    }
    retryCount' := retryCount - 1;
    if retryCount' > 0 {
      urlList' := urls;
      url := None;
      if |urlList'| > 0 {
        url, urlList' := Some(urlList'[0]), urlList'[1..];
      }
      return url, urlList', retryCount', false;
    }
    return None, urlList, retryCount', true;
  }

  /** The download loop: one request per step, the first ok response wins,
      and the catch block picks the next request; the result and the number
      of attempts are those of the reference run over the scheduled requests. */
  method GetDashPart(urls: seq<string>, data: SlicePlan.Slice, net: Network)
    returns (result: DashResult, attempts: nat)
    ensures (result, attempts) == DashOutcome(urls, data, net)
  {
    ghost var log := Requests(urls, data);
    ghost var m := |Pass(urls)|;
    var urlList := urls;
    var retryCount := RetryBudget;
    var url: Option<string> := None;
    if |urlList| > 0 {
      url, urlList := Some(urlList[0]), urlList[1..];
    }
    attempts := 0;
    ghost var pass, pos, base := 0, 0, 0;
    ScheduleAt(urls, data, 0, 0, 0);
    while true
      invariant 0 <= pos < m && 0 <= pass < RetryBudget && base == Offset(pass, m)
      invariant attempts == base + pos && attempts < |log|
      invariant retryCount == RetryBudget - pass
      invariant url == Pass(urls)[pos] && urlList == Queued(urls, pos)
      invariant forall i :: 0 <= i < attempts ==> !IsOk(Observe(log[i], net, i))
      decreases RetryBudget - pass, m - pos
    {
      ScheduleAt(urls, data, pass, pos, attempts);
      var request := DashRequest(url, data.start, data.end);
      var attempt := Observe(request, net, attempts);
      if IsOk(attempt) {
        result := Done(Part(data.index, BodyOf(attempt)));
        RunFirstOk(log, data.index, net, attempts);
        attempts := attempts + 1;
        return;
      }
      attempts := attempts + 1;
      var exhausted;
      url, urlList, retryCount, exhausted := NextMirror(urls, urlList, retryCount, pass, pos);
      if exhausted {
        result := AllUrlsFailed(FailureOf(attempt));
        RunAllFail(log, data.index, net);
        return;
      }
      if pos + 1 < m {
        pos := pos + 1;
      } else {
        pass, pos, base := pass + 1, 0, base + m;
      }
    }
  }

  /** The run from step k stops at the first ok attempt, or fails after the
      last step of the schedule; every attempt before the stopping one failed. */
  lemma {:induction false} RunFromStops(schedule: seq<DashRequest>, index: nat, net: Network, k: nat)
    requires k < |schedule|
    ensures var (r, n) := RunFrom(schedule, index, net, k);
      && k < n <= |schedule|
      && (forall i :: k <= i < n - 1 ==> !IsOk(Observe(schedule[i], net, i)))
      && (r.Done? <==> IsOk(Observe(schedule[n - 1], net, n - 1)))
      && (r.Done? ==> r.part == Part(index, BodyOf(Observe(schedule[n - 1], net, n - 1))))
      && (r.AllUrlsFailed? ==> n == |schedule| && r.last == FailureOf(Observe(schedule[n - 1], net, n - 1)))
    decreases |schedule| - k
  {
    if !IsOk(Observe(schedule[k], net, k)) && k + 1 < |schedule| {
      RunFromStops(schedule, index, net, k + 1);
    }
  }

  /** The first ok step decides the run. */
  lemma RunFirstOk(schedule: seq<DashRequest>, index: nat, net: Network, j: nat)
    requires j < |schedule| && IsOk(Observe(schedule[j], net, j))
    requires forall i :: 0 <= i < j ==> !IsOk(Observe(schedule[i], net, i))
    ensures RunFrom(schedule, index, net, 0) == (Done(Part(index, BodyOf(Observe(schedule[j], net, j)))), j + 1)
  {
    RunFromStops(schedule, index, net, 0);
  }

  /** When no step is ok the run uses the whole schedule and reports the last failure. */
  lemma RunAllFail(schedule: seq<DashRequest>, index: nat, net: Network)
    requires |schedule| > 0
    requires forall i :: 0 <= i < |schedule| ==> !IsOk(Observe(schedule[i], net, i))
    ensures var n := |schedule|;
      RunFrom(schedule, index, net, 0) == (AllUrlsFailed(FailureOf(Observe(schedule[n - 1], net, n - 1))), n)
  {
    RunFromStops(schedule, index, net, 0);
  }

  /** URLs are tried in list order, the primary first, and each pass starts over
      from the primary: attempt k goes to urls[k mod |urls|]. */
  lemma ScheduleOrder(urls: seq<string>, k: nat)
    requires urls != [] && k < |Schedule(urls)|
    ensures |Schedule(urls)| == 3 * |urls|
    ensures Schedule(urls)[k] == Some(urls[k % |urls|])
  {
    var m := |urls|;
    DivMod(k, m);
    if k / m >= RetryBudget {
      MulMonotone(RetryBudget, k / m, m);
    }
    RepeatAt(Pass(urls), RetryBudget, k / m, k % m);
  }

  /** With no URL at all, each of the three passes is one attempt at the undefined URL. */
  lemma EmptyMirrorList()
    ensures Schedule([]) == [None, None, None]
  {
  }

  /** At least one attempt, and at most three per mirror (three when the list is empty). */
  lemma AttemptBound(urls: seq<string>, data: SlicePlan.Slice, net: Network)
    ensures 1 <= DashOutcome(urls, data, net).1 <= RetryBudget * (if urls == [] then 1 else |urls|)
  {
    RunFromStops(Requests(urls, data), data.index, net, 0);
  }

  /** Attempt k sends the scheduled URL with the slice's Range header. */
  lemma RequestAt(urls: seq<string>, data: SlicePlan.Slice, k: nat)
    requires k < |Schedule(urls)|
    ensures Requests(urls, data)[k] == DashRequest(Schedule(urls)[k], data.start, data.end)
    ensures RangeHeaderOf(Requests(urls, data)[k]) == RangeValue(data.start, data.end)
  {
  }

  /** When every attempt fails, every step of the schedule is used: exactly
      3 * |urls| attempts, then "All URLs failed" with the last failure. */
  lemma AllFailuresExhaustBudget(urls: seq<string>, data: SlicePlan.Slice, net: Network)
    requires forall r, k :: !IsOk(net(r, k))
    ensures DashOutcome(urls, data, net).0.AllUrlsFailed?
    ensures DashOutcome(urls, data, net).1 == RetryBudget * (if urls == [] then 1 else |urls|)
  {
    var log := Requests(urls, data);
    RunFromStops(log, data.index, net, 0);
    var n := DashOutcome(urls, data, net).1;
    assert !IsOk(Observe(log[n - 1], net, n - 1));
  }

  /** The first ok attempt ends the loop and its body becomes the slice's part. */
  lemma FirstOkWins(urls: seq<string>, data: SlicePlan.Slice, net: Network, j: nat)
    requires j < |Schedule(urls)|
    requires IsOk(Observe(Requests(urls, data)[j], net, j))
    requires forall i :: 0 <= i < j ==> !IsOk(Observe(Requests(urls, data)[i], net, i))
    ensures DashOutcome(urls, data, net) == (Done(Part(data.index, BodyOf(net(Requests(urls, data)[j], j)))), j + 1)
  {
    RunFromStops(Requests(urls, data), data.index, net, 0);
  }

  /** Mirrors [A, B, C] where A and B fail and C answers: A, B and C are tried
      once each, in that order and with the slice's Range header, and C's
      bytes are returned. */
  lemma ThirdMirrorServes(a: string, b: string, c: string, data: SlicePlan.Slice, net: Network, body: Bytes)
    requires !IsOk(net(DashRequest(Some(a), data.start, data.end), 0))
    requires !IsOk(net(DashRequest(Some(b), data.start, data.end), 1))
    requires net(DashRequest(Some(c), data.start, data.end), 2) == Reply(200, Some(body))
    ensures DashOutcome([a, b, c], data, net) == (Done(Part(data.index, body)), 3)
  {
    var urls := [a, b, c];
    var log := Requests(urls, data);
    forall i | 0 <= i < 3
      ensures log[i] == DashRequest(Some(urls[i]), data.start, data.end)
    {
      ScheduleOrder(urls, i);
      RequestAt(urls, data, i);
    }
    FirstOkWins(urls, data, net, 2);
  }
}
