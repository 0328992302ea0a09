/** getMediaDataList and the Promise.all that awaits it: one getDashPart per
    planned slice, all with the same mirror list, and the list of their parts
    in plan order once every slice has succeeded. */
module MediaDownload {
  import opened Common
  import opened DashPart
  import SlicePlan
  import Reassembly

  /** Promise.all over the slice downloads: the parts in plan order when every
      slice succeeds, and no result at all as soon as one of them fails. */
  function Download(urls: seq<string>, plan: seq<SlicePlan.Slice>, net: Network): Option<seq<Part>>
  {
    if forall i :: 0 <= i < |plan| ==> DashOutcome(urls, plan[i], net).0.Done?
    then Some(seq(|plan|, i requires 0 <= i < |plan| && DashOutcome(urls, plan[i], net).0.Done? =>
                            DashOutcome(urls, plan[i], net).0.part))
    else None
  }

  /** Plans the slices from the source's Content-Length and downloads each
      one. With no link the first fetch (of links[0], undefined) is rejected. */
  method GetMediaData(links: seq<string>, contentLength: Option<string>, net: Network)
      returns (parts: Option<seq<Part>>)
    ensures links == [] ==> parts == None
    ensures links != [] ==> parts == Download(links, SlicePlan.MediaDataList(contentLength), net)
  {
    if links == [] {
      return None;
    }
    var plan := SlicePlan.MediaDataList(contentLength);
    var done: seq<Part> := [];
    for i := 0 to |plan|
      invariant |done| == i
      invariant forall j :: 0 <= j < i ==> DashOutcome(links, plan[j], net).0 == Done(done[j])
    {
      var result, _ := GetDashPart(links, plan[i], net);
      if result.AllUrlsFailed? {
        return None;
      }
      done := done + [result.part];
    }
    parts := Some(done);
    assert done == Download(links, plan, net).value;
  }

  /** All or nothing: the download succeeds exactly when every slice does,
      and then part i is slice i's part, keyed by that slice's index. */
  lemma {:induction false} AllOrNothing(urls: seq<string>, plan: seq<SlicePlan.Slice>, net: Network)
    ensures Download(urls, plan, net).Some?
        <==> forall i :: 0 <= i < |plan| ==> DashOutcome(urls, plan[i], net).0.Done?
    ensures Download(urls, plan, net).Some? ==>
      var parts := Download(urls, plan, net).value;
      && |parts| == |plan|
      && forall i :: 0 <= i < |plan| ==>
           && DashOutcome(urls, plan[i], net).0 == Done(parts[i])
           && parts[i].index == plan[i].index
  {
    if Download(urls, plan, net).Some? {
      var parts := Download(urls, plan, net).value;
      forall i | 0 <= i < |plan|
        ensures parts[i].index == plan[i].index
      {
        RunFromStops(Requests(urls, plan[i]), plan[i].index, net, 0);
      }
    }
  }

  /** Every mirror answers every in-range byte request with those bytes of
      the resource, status 200. */
  ghost predicate Serves(net: Network, resource: Bytes)
  {
    forall r: DashRequest, k: nat :: r.url.Some? && 0 <= r.start <= r.end < |resource| ==>
      net(r, k) == Reply(200, Some(resource[r.start..r.end + 1]))
  }

  /** A serving network answers each slice's first request, to the primary
      mirror, with the slice's bytes: the download ends after one attempt. */
  lemma ServedSlice(urls: seq<string>, resource: Bytes, width: nat, net: Network, i: nat)
    requires urls != [] && width > 0 && Serves(net, resource)
    requires i < |SlicePlan.Plan(|resource|, width)|
    ensures DashOutcome(urls, SlicePlan.Plan(|resource|, width)[i], net)
         == (Done(Reassembly.SliceParts(resource, width)[i]), 1)
  {
    var s := SlicePlan.Plan(|resource|, width)[i];
    SlicePlan.SliceShape(|resource|, width, i);
    Reassembly.SlicePartAt(resource, width, i);
    ScheduleOrder(urls, 0);
    RequestAt(urls, s, 0);
    var request := Requests(urls, s)[0];
    assert request == DashRequest(Some(urls[0]), s.start, s.end);
    assert net(request, 0) == Reply(200, Some(resource[s.start..s.end + 1]));
    FirstOkWins(urls, s, net, 0);
  }

  /** With a serving network the download of the plan yields exactly the
      slices of the resource, in order, and their buffers concatenate back
      to the whole resource. */
  lemma ServedDownload(urls: seq<string>, resource: Bytes, width: nat, net: Network)
    requires urls != [] && width > 0 && Serves(net, resource)
    ensures Download(urls, SlicePlan.Plan(|resource|, width), net) == Some(Reassembly.SliceParts(resource, width))
    ensures Flatten(Reassembly.Bodies(Download(urls, SlicePlan.Plan(|resource|, width), net).value)) == resource
  {
    var plan := SlicePlan.Plan(|resource|, width);
    var expected := Reassembly.SliceParts(resource, width);
    forall i | 0 <= i < |plan|
      ensures DashOutcome(urls, plan[i], net).0 == Done(expected[i])
    {
      ServedSlice(urls, resource, width, net, i);
    }
    assert Download(urls, plan, net).value == expected;
    Reassembly.SlicePartsWhole(resource, width);
  }

  /** The video route end to end: when the primary reports the resource's
      true length as a decimal Content-Length and every mirror serves it,
      the stream processMediaDataList builds is the resource itself. */
  lemma ServedVideo(links: seq<string>, resource: Bytes, net: Network)
    requires links != [] && Serves(net, resource)
    ensures Download(links, SlicePlan.MediaDataList(Some(NatToDecimal(|resource|))), net)
         == Some(Reassembly.SliceParts(resource, SlicePlan.SliceSize))
    ensures Flatten(Reassembly.Bodies(Reassembly.SliceParts(resource, SlicePlan.SliceSize))) == resource
  {
    ParseNatToDecimal(|resource|);
    ServedDownload(links, resource, SlicePlan.SliceSize, net);
  }
}
