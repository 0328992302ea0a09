# Bilibili media relay: a verified model of its fetch and bundle core

The repository is a Cloudflare Worker that relays media. There are two paths.

- **Download path.** It takes a list of mirror URLs for a video. It cuts the
  resource into 40 MiB byte ranges (`getMediaDataList`). It fetches each range
  from the mirrors, moving to the next mirror after every failure and making
  at most three passes over the list (`getDashPart`). It then sorts the slice
  results by index and enqueues their buffers as one stream
  (`processMediaDataList`).
- **Bundle path.** It takes a `|`-separated list of URLs (`x-urls`) and an
  optional JSON list of byte-range sets (`x-ranges`). It validates the ranges
  and fetches every URL with the Range header of its own set, giving each
  item up to three attempts. It then reads every response into a
  (status, length, body) triple and serialises the triples into one binary
  payload. The payload is an LSB-first status bitmap of ceil(N/8) bytes,
  then N unsigned 32-bit little-endian lengths, then the bodies back to back.

The model also covers these smaller pieces:

- the classification of video identifiers (`getIdType`);
- the response-code switch of `BiliBilifetch`;
- the handler's `x-bvid` / `x-video-links` check;
- the single-URL relay's rule against a GET with a body.

Modules, one per file:

| file | module | models |
|---|---|---|
| common.dfy | Common | bytes, `Option`, chunk concatenation, decimal rendering, `String.prototype.split`/`join` on one character, fetch attempts |
| slices.dfy | SlicePlan | the slice plan of `getMediaDataList` |
| dash.dfy | DashPart | `getDashPart`: the mirror/retry loop against a network oracle |
| download.dfy | MediaDownload | `getMediaDataList`'s slice downloads and the `Promise.all` that awaits them |
| reassembly.dfy | Reassembly | `processMediaDataList`: the in-place sort and the enqueued chunks |
| videoid.dfy | VideoId | `getIdType`, `isValidBVID`, `isValidAVID` |
| apicode.dfy | ApiCode | the `code` switch of `BiliBilifetch` |
| requests.dfy | RequestChecks | the `x-bvid` branch and the `x-url` relay's method/body check |
| ranges.dfy | RangeSpec | `x-ranges` validation and the item Range header |
| bundle_format.dfy | BundleFormat | the bitmap, the length table, the payload and a decoder for it |
| bundle.dfy | Bundle | the `x-urls` branch: the per-item retry loop, the read phase and the reply |

Every network effect is an oracle passed as a parameter. `getDashPart` sees a
`Network`, a function from (request, attempt number) to what that attempt
observes. A request carries the URL and the byte range that its Range header
names. The bundle path sees a function from (item index, attempt number) to
the fetch result. Attempts that reject are modelled as rejected promises.
Fetching the `undefined` that `shift()` returns from an empty mirror list is
modelled as a rejection that never reaches the network.

### Behaviour of the code the model keeps

- **Open-ended ranges cannot be sent.** The `r[1] === -1` branch at
  src/index.ts:147 shows that an `x-ranges` pair ending in -1 was meant as an
  open-ended range. But the validation at src/index.ts:121 rejects every pair
  whose end is below its start, and -1 is below every start that is >= 0. So
  that branch never runs (`RangeSpec.ValidatedNeverOpenEnded`).
- **Unparsable `x-ranges` is ignored.** When `JSON.parse` throws, the catch at
  src/index.ts:130-132 only logs. `ranges` stays undefined, and the items go
  out without a Range header (`Bundle.RangesHeader.Unparsable`).
- **AV id length.** The comment at src/bilibili.ts:151 says an AV id has 1 to
  10 digits. The regular expression at src/bilibili.ts:152 allows 1 to 15,
  and the model follows the regular expression (`VideoId.AvidDigitCount`).
- **Dead `x-video-links` checks.** `split('|')` always returns at least one
  piece. So only a missing `x-video-links` gives a 400, and the later
  `!bvid` test at src/index.ts:73 cannot fail (`RequestChecks.StoreLinksDecided`).
- **Empty mirror list.** With no mirror at all, `getDashPart` does not fail at
  once. It makes three attempts at the undefined URL (`DashPart.EmptyMirrorList`).

## Model

| member | source | states |
|---|---|---|
| SlicePlan.MediaDataList | src/bilibili.ts:20-27 | defines the plan getMediaDataList builds: the slice plan of the Content-Length of the primary URL, with the 40 MiB slice width |
| SlicePlan.Plan | src/bilibili.ts:21-24 | defines the plan: one slice per index below Math.ceil(length / width) |
| SlicePlan.SliceAt | src/bilibili.ts:25-26 | defines slice i: start i * width, end min(start + width - 1, length - 1) |
| SlicePlan.SourceLength | src/bilibili.ts:20 | a missing Content-Length, or one that is not a decimal number, yields length 0; otherwise the length is the header's value |
| SlicePlan.SliceCount | src/bilibili.ts:21 | the slice count is Math.ceil(length / width): the least n with n * width >= length |
| SlicePlan.ZeroLengthNoSlices | src/bilibili.ts:21-22 | a zero-length resource gives an empty plan |
| SlicePlan.MissingLengthNoSlices | src/bilibili.ts:20-22 | a missing or unparsable Content-Length gives no slices, so nothing is downloaded |
| SlicePlan.SliceShape | src/bilibili.ts:22-27 | slice i starts at i * 40 MiB and is 1 to 40 MiB wide; it is exactly 40 MiB unless it is the last, and the last one ends at length - 1 |
| SlicePlan.Contiguous | src/bilibili.ts:25-26 | each slice starts one byte after the previous one ends |
| SlicePlan.CoveredExactlyOnce | src/bilibili.ts:22-27 | every byte of [0, length) lies in slice i exactly when i == byte / width, so each byte is in one slice and only one |
| SlicePlan.ByteInItsSlice | src/bilibili.ts:25-26 | slice byte / width exists and contains the byte |
| SlicePlan.OnlyItsSlice | src/bilibili.ts:25-26 | a slice that contains a byte is slice byte / width |
| SlicePlan.PrefixSum | src/bilibili.ts:22-27 | the first k slices together are exactly bytes 0 through the end of slice k - 1 |
| SlicePlan.TotalWidth | src/bilibili.ts:22-27 | the slice widths add up to the resource length: the plan covers [0, length) and nothing beyond |
| SlicePlan.LastWidth | src/bilibili.ts:26 | the last slice is length mod 40 MiB wide, or a full 40 MiB when the width divides the length |
| DashPart.Pass | src/bilibili.ts:50-52 | one pass over the mirrors has one step per mirror; an empty list still has one step, on the undefined URL |
| DashPart.NextMirror | src/bilibili.ts:69-80 | the catch block moves to the next queued mirror; when the queue is empty it spends one retry and restarts from the first URL; it reports exhaustion exactly after the last mirror of the third pass |
| DashPart.GetDashPart | src/bilibili.ts:42-83 | the loop's result and attempt count equal those of the reference run, which sends every scheduled request in order and stops at the first ok response |
| DashPart.RunFromStops | src/bilibili.ts:53-81 | the run stops at the first ok attempt and returns that attempt's body under the slice index; otherwise it fails after the last scheduled attempt, carrying that attempt's failure; every earlier attempt was not ok |
| DashPart.ScheduleOrder | src/bilibili.ts:50-52 | with m mirrors there are 3m scheduled attempts, and attempt k goes to mirror k mod m: mirrors in list order, each pass starting again from the primary |
| DashPart.EmptyMirrorList | src/bilibili.ts:70-77 | with no mirror, the schedule is three attempts at the undefined URL |
| DashPart.AttemptBound | src/bilibili.ts:51-79 | a download makes at least one attempt and at most three per mirror |
| DashPart.RequestAt | src/bilibili.ts:56-61 | attempt k sends the scheduled URL with the slice's byte range, and its Range header is `bytes=start-end` for the slice's first and last byte |
| DashPart.AllFailuresExhaustBudget | src/bilibili.ts:72-79 | when every attempt fails, the download fails after exactly three attempts per mirror |
| DashPart.FirstOkWins | src/bilibili.ts:62-68 | the first ok attempt ends the download, and its body becomes the part keyed by the slice index |
| DashPart.ThirdMirrorServes | src/bilibili.ts:50-71 | with mirrors A, B, C where A and B fail and C answers, each is tried once in that order with the slice's Range header, and C's bytes are returned after three attempts |
| Reassembly.SortByIndex | src/bilibili.ts:86-90 | after the in-place sort the array is in ascending slice index and holds the same parts (a permutation) |
| Reassembly.Insert | src/bilibili.ts:86-90 | one insertion step extends the sorted prefix by one element and keeps the array a permutation |
| Reassembly.SwapDown | src/bilibili.ts:86-90 | one adjacent swap moves the travelling element left, keeps the rest of the prefix sorted and keeps the array a permutation |
| MediaDownload.Download | src/index.ts:50-51 | defines what `Promise.all` over the slice downloads resolves to: the parts in plan order when every slice's download succeeds, and a rejection when any one fails |
| MediaDownload.GetMediaData | src/bilibili.ts:15-39 | with no link the first fetch is rejected; otherwise one mirror/retry download per slice of the plan for the reported Content-Length, each with the full link list, and the result equals the all-or-nothing combination of those downloads |
| MediaDownload.AllOrNothing | src/index.ts:50-51 | the awaited list exists exactly when every slice's download succeeds; it then has one part per slice, part i is slice i's result, and it is keyed by slice i's index |
| MediaDownload.ServedSlice | src/bilibili.ts:25-33 | when every mirror serves the resource, each slice's download ends after one attempt, the one to the primary, and yields that slice's bytes under its index |
| MediaDownload.ServedDownload | src/bilibili.ts:20-39 | when every mirror serves the resource, the download of the plan is exactly one part per slice in order, and their buffers concatenate to the whole resource |
| MediaDownload.ServedVideo | src/index.ts:50-51 | when the primary reports the true length and every mirror serves the resource, the awaited list is the resource's slice parts and the stream built from it is the resource itself |
| Reassembly.ProcessMediaDataList | src/bilibili.ts:85-99 | the list is sorted by index in place and stays a permutation; the enqueued chunks are the parts' buffers in that order |
| Reassembly.SortedPermutationUnique | src/bilibili.ts:86-90 | when no two parts share an index, two index-sorted arrangements of the same parts are the same list, so the sort's result is determined |
| Reassembly.CompletionOrderIrrelevant | src/bilibili.ts:85-99 | the stream's bytes do not depend on the order in which the slices completed |
| Reassembly.SumBodyLengthsPermutation | src/bilibili.ts:86-96 | reordering the parts does not change the total of their buffer lengths |
| Reassembly.StreamLength | src/bilibili.ts:91-99 | the stream is as long as all the input buffers together, whatever order the input was in |
| Reassembly.SliceParts | src/bilibili.ts:22-33 | an error-free download has one part per planned slice |
| Reassembly.SlicePartAt | src/bilibili.ts:25-33 | part i holds exactly the bytes of slice i's range |
| Reassembly.SlicePartsPrefix | src/bilibili.ts:22-27 | the first k parts concatenate to the resource's prefix ending at slice k - 1 |
| Reassembly.SlicePartsOrdered | src/bilibili.ts:22-27 | the parts of one download are in index order, and no two share an index |
| Reassembly.SlicePartsWhole | src/bilibili.ts:22-33 | the parts of one download, in index order, concatenate to the whole resource |
| Reassembly.Reassembles | src/bilibili.ts:85-99 | whatever order the slices complete in, sorting them and concatenating their buffers gives back the resource |
| VideoId.GetIdType | src/bilibili.ts:136-142 | defines the classification: BV id, then AV id, then an "ss" prefix (season), then an "ep" prefix (episode), else unknown |
| VideoId.IsValidBvid | src/bilibili.ts:144-148 | defines /^BV[a-zA-Z0-9]{10}$/: twelve characters, "BV" and then ten ASCII letters or digits |
| VideoId.IsValidAvid | src/bilibili.ts:150-154 | defines /^AV\d{1,15}$/: "AV" and then one to fifteen decimal digits |
| VideoId.ShapesExclusive | src/bilibili.ts:136-142 | each class of getIdType holds exactly the ids of its shape; the shapes do not overlap, so the order of the checks does not matter |
| VideoId.BvidShape | src/bilibili.ts:144-148 | "BV" followed by any ten ASCII letters or digits is classified as a BV id |
| VideoId.AvidDigitCount | src/bilibili.ts:150-154 | "AV" followed by 1 to 15 digits is an AV id; with 16 or more digits it is unknown |
| VideoId.LowerCaseBvUnknown | src/bilibili.ts:136-148 | the prefixes are case-sensitive: an id starting "bv" is unknown |
| ApiCode.Classify | src/bilibili.ts:109-124 | defines the switch: the raw code 0 or 200 returns the data; otherwise the magnitude of the code, a missing code counting as 0, picks the error class |
| ApiCode.DataOnlyOnSuccess | src/bilibili.ts:109-112 | the data is returned exactly when the raw code is 0 or 200 |
| ApiCode.SignIgnoredForErrors | src/bilibili.ts:109-120 | error codes are classified by magnitude: negating an error code does not change its class |
| ApiCode.NegatedSuccessIsUnexpected | src/bilibili.ts:109-123 | the success test uses the raw code: 200 returns the data, and -200 is an unexpected error |
| ApiCode.MissingCodeUnexpected | src/bilibili.ts:109-123 | a reply without a code is an unexpected error, not a success |
| ApiCode.ErrorClasses | src/bilibili.ts:113-120 | apart from the success codes, codes of magnitude 400, 404, 352 or 412, and 10403, 688 or 6002003 are exactly the bad-request, not-found, risk-control and area-limit classes |
| RequestChecks.StoreLinks | src/index.ts:67-79 | defines the x-bvid branch: not taken without a truthy x-bvid, a 400 without x-video-links, else the id and the list of pieces between the bar separators, to store |
| RequestChecks.StoreLinksDecided | src/index.ts:67-79 | with x-bvid set, a missing x-video-links is the only rejection; otherwise the stored list is non-empty, keyed by the id, and joins back to the header |
| RequestChecks.Relay | src/index.ts:85-104 | defines the x-url branch: a 400 for a missing or empty target or for a body sent with GET (the default method), else the request forwarded with the target, method and body |
| RequestChecks.RelayBodyRule | src/index.ts:86-104 | with a target URL, the relay rejects exactly a non-empty body sent with GET, whether GET was given or defaulted; anything else is forwarded with its URL, method and body unchanged |
| RequestChecks.LowerCaseGetForwarded | src/index.ts:89-92 | the method comparison is exact: "get" with a body is forwarded |
| RangeSpec.ValidateRanges | src/index.ts:116-126 | the validation accepts exactly one range-set per URL in which every pair has start >= 0 and end >= start |
| RangeSpec.PieceAsWritten | src/index.ts:147 | defines one pair as line 147 renders it: "bytes=start-end", or "bytes=start-" when end is -1 |
| RangeSpec.RangeHeaderAsWritten | src/index.ts:146-148 | defines the header as line 147 builds it: the rendered pairs joined with commas; no header for an empty range-set |
| RangeSpec.ValidatedNeverOpenEnded | src/index.ts:119-124 | a validated pair never has end = -1 |
| RangeSpec.RangeHeader | src/index.ts:146-148 | defines the corrected header every modelled item request carries: absent for an empty range-set, otherwise `bytes=` once, then the pairs as start-end joined by commas, the bytes-range form of section 14.1.2 of RFC 9110 |
| RangeSpec.RangeHeaderRoundTrip | src/index.ts:146-148 | corrected header: for a validated, non-empty range-set, a reader of the bytes-range syntax gets back exactly its pairs, in order |
| RangeSpec.SinglePairAgrees | src/index.ts:147 | for a single pair, the header as written is the correct one |
| RangeSpec.PieceShape | src/index.ts:147 | each piece as written is "bytes=" followed by the pair's range-spec, and contains no comma |
| RangeSpec.AsWrittenElements | src/index.ts:146-148 | split at commas, the header as written gives one element per pair, each carrying its own "bytes=" |
| RangeSpec.AsWrittenMalformed | src/index.ts:147 | for two or more valid pairs, the header as written is not a valid bytes-range value |
| RangeSpec.TwoPairsAsWritten | src/index.ts:147 | the pairs [0,10] and [20,30] are rendered as "bytes=0-10,bytes=20-30" |
| RangeSpec.TwoPairsValueMalformed | src/index.ts:147 | "bytes=0-10,bytes=20-30" does not parse as a bytes-range: its second element is not an int-range |
| RangeSpec.TwoPairsCorrected | src/index.ts:147 | the corrected header for those pairs is "bytes=0-10,20-30" |
| BundleFormat.BitmapSize | src/index.ts:208 | the status buffer has the least byte count that holds one bit per item |
| BundleFormat.BitmapBits | src/index.ts:208-213 | bit k of byte j is set exactly when item 8j + k exists and succeeded; padding bits are 0 |
| BundleFormat.EncodeStatusBitmap | src/index.ts:208-213 | the zeroed buffer, with bit i mod 8 of byte floor(i / 8) or-ed in for every success i, is the status bitmap |
| BundleFormat.ToUint32 | src/index.ts:217 | the value setUint32 stores is below 2^32 (the length modulo 2^32) |
| BundleFormat.Le32RoundTrip | src/index.ts:217 | for any value below 2^32, reading the four written bytes back as an unsigned 32-bit little-endian value gives the value |
| BundleFormat.LengthTableEntry | src/index.ts:214-218 | bytes 4i to 4i+3 of the table hold length i modulo 2^32, little-endian |
| BundleFormat.EncodeLengthTable | src/index.ts:214-218 | the buffer filled with setUint32(4i, length, true) is the length table |
| BundleFormat.EncodeBundle | src/index.ts:219-225 | the blob is the status bitmap, then the length table, then every body in order with no delimiters |
| BundleFormat.ReadStatusesBitmap | src/index.ts:208-213 | reading the first N bits of the bitmap gives back the statuses |
| BundleFormat.ReadLengthsTable | src/index.ts:214-218 | reading N entries of the table gives back lengths below 2^32 |
| BundleFormat.SplitFlatten | src/index.ts:219-224 | cutting the concatenated bodies by their lengths gives back the bodies |
| BundleFormat.DecodeEncode | src/index.ts:208-225 | a reader that knows N gets back every (status, length, body) triple, provided each length is its body's and below 2^32 |
| BundleFormat.PayloadSize | src/index.ts:208-225 | the payload is ceil(N/8) + 4N + the sum of the lengths bytes long, for any lengths that are their bodies' own, including lengths that wrap in the table |
| BundleFormat.MiddleItemFailed | src/index.ts:208-224 | for three items with the middle one failed, the bitmap is 0b101, the middle length is 0 and the bodies are those of items 0 and 2 |
| BundleFormat.OneZeroOneBitmap | src/index.ts:208-213 | the statuses 1, 0, 1 give the single bitmap byte 0x05 |
| Bundle.RetryFrom | src/index.ts:150-160 | defines the retry loop: a rejected fetch rejects the item at once, an ok response fulfils it, and three non-ok responses reject it |
| Bundle.FetchWithRetry | src/index.ts:150-160 | the per-item loop settles as the reference retry run does, with the same attempt count |
| Bundle.RetryFromStops | src/index.ts:150-160 | the loop stops at the first ok response, at the first rejected fetch, or after three non-ok responses; the item is fulfilled exactly when the last attempt was ok, and then with that response |
| Bundle.RejectionNotRetried | src/index.ts:151-156 | a rejected fetch rejects the item at once, with no retry |
| Bundle.ThreeBadStatusesReject | src/index.ts:150-160 | three non-ok responses reject the item after exactly three attempts |
| Bundle.ReadBody | src/index.ts:189-203 | reading a stream to its end gives the chunks concatenated in order, and receivedLength is their total size |
| Bundle.OutcomeOf | src/index.ts:166-188 | defines an item's (status, length, body): 0 with no body unless the item was fulfilled with an ok response; an ok response without a body has length 0; a streamed one has its chunks and their total length |
| Bundle.OutcomeShape | src/index.ts:166-188 | an item's status is 1 exactly for an ok response; a failed item has length 0 and no body; the length is always the body's; a streamed body is its chunks, and an ok response without a body has length 0 and no body |
| Bundle.FetchAll | src/index.ts:139-161 | one retried GET per URL, in list order, each with its own Range header; each item settles as its retry run does |
| Bundle.ReadOutcomes | src/index.ts:162-206 | the status, length and body lists hold each item's outcome at the item's position |
| Bundle.HandleUrls | src/index.ts:106-229 | the branch gives a 400 without fetching exactly when the request is not accepted; otherwise it sends the item requests, makes each item's attempts and replies with the encoding of the per-position outcomes |
| Bundle.RejectedBeforeFetching | src/index.ts:107-126 | the reply is a 400 exactly when x-urls is missing or empty, or when x-ranges parsed to the wrong count or to a bad pair |
| Bundle.ClientReadsItems | src/index.ts:162-225 | a client that knows N reads back, at position i, status 1 exactly when item i ended in an ok response, that response's body, and a length equal to the body's, 0 when the ok response had no body; a failed item reads as 0 with no body |
| Bundle.ItemRangeHeaders | src/index.ts:143-149 | an item with no range-set sends no Range header of its own, and one with a non-empty validated set sends a header that reads back as exactly its pairs |
| Bundle.ItemRangeHeadersAsWritten | src/index.ts:146-148 | the header line 147 builds for an item is absent without pairs and is the header the model sends for one pair; for two or more pairs it is not a valid bytes-range value, and so differs from the header the model sends |
| Bundle.PushOrderAsWritten | src/index.ts:166-206 | defines the order of the pushes as written: each item's status in item order; the length and body of every item settled without a stream at once, in item order; then, for the streamed items, each one's length and body after its stream is read, assuming the streamed reads finish in item order |
| Bundle.PayloadAsWritten | src/index.ts:208-225 | defines the reply bytes as written: the bitmap of the pushed statuses, the u32 little-endian table of the pushed lengths and the pushed bodies, each list in push order |
| Bundle.PushedCount | src/index.ts:166-205 | as written, every item pushes its length exactly once, whether synchronously or from a later callback |
| Bundle.PushOrderMisattributes | src/index.ts:166-206 | as written, a streamed success followed by a failure is read back with item 0 as an empty success and item 1 as a failure carrying item 0's bytes; with outcomes kept in item position it reads back correctly |

## Left out

- Concurrency. The slice downloads of `getMediaDataList` run one after the
  other in MediaDownload.GetMediaData, and the bundle items one after the
  other in Bundle.FetchAll. Each is an independent oracle run, unaffected by
  the others, so the results do not depend on the interleaving.
  MediaDownload.Download models what `Promise.all` (src/index.ts:51) resolves
  to, all or nothing. When several slices fail, the model does not say which
  rejection `Promise.all` reports first; that depends on timing.
  `Promise.all` keeps plan order, so the sort in `processMediaDataList` does
  not change the list. The one place the interleaving matters is the read
  phase of the bundle path. There it changes which position a length and
  body land in. `Bundle.PushOrderAsWritten` assumes that the streamed reads
  finish in item order (see Findings). Other finishing orders are not
  covered.
- The request dispatcher and its glue: the `|| true` test at
  src/index.ts:23, the path split, the API-key check and the `video_data`
  route (src/index.ts:26-65). These only route requests or call the KV cache
  and the video lookups. The `x-url` test at src/index.ts:85 compares a
  `string | null` with `undefined`, so it is always true and the `x-urls`
  branch is unreachable through the dispatcher. `Bundle.HandleUrls` models
  that branch as if it were reached.
- src/kv.ts and src/type.ts are not part of this model: the first is a
  key-value cache and the second only declares types.
- `getVideoInfo`, `getVideoPlayInfo` and the network part of `BiliBilifetch`
  (src/bilibili.ts:103-108, 127-134, 156 onwards) are not modelled. These are
  upstream API calls. Only the code switch is modelled.
- The first request of `getMediaDataList` is not modelled; only the
  Content-Length it yields is. Its try/catch (src/bilibili.ts:28-37) only
  logs and rethrows. It cannot see the rejection of the promise it returns,
  so it has no observable effect.
- SlicePlan.SourceLength: only strings of decimal digits are read as numbers.
  JavaScript's `Number()` also accepts surrounding white space, a sign, a
  fraction, an exponent and hexadecimal. A real Content-Length header is
  decimal digits.
- Numbers are modelled as unbounded integers. In the source, Content-Length
  and the `x-ranges` pairs are JavaScript doubles, so the model does not
  capture three effects: the precision lost above 2^53; exponent rendering
  such as `1e+21` in the template at src/index.ts:147; and fractional pairs
  such as `[1.5, 2]`, which pass the check at src/index.ts:121 and render as
  `bytes=1.5-2`.
- Header copying and deletion are not modelled: `processedHeaders`, the
  relay's headers and the fixed browser headers of bilibili.ts. An item
  request carries only its URL and its Range header.
- `JSON.parse` of `x-ranges` is not modelled. The header is given already
  parsed, or as `Unparsable` when the parse throws. JSON shapes other than
  arrays of number pairs are not modelled.
- The regular expressions of `isValidBVID` and `isValidAVID` are written as
  predicates over characters.
- `ReadableStream`, `Blob`, `ArrayBuffer` and `DataView` are modelled as byte
  sequences. The stream's `close()` is not modelled, and neither is the copy
  into an unused `Uint8Array` at src/index.ts:191-196.
- The relay's own `fetch` (src/index.ts:96-104) and the KV write of the
  `x-bvid` branch (src/index.ts:76) are modelled by the request they would
  send or the entry they would store.
- Console logging, timing and the texts of error messages are not modelled.
- Bundle.ClientReadsItems: assumes every response body is shorter than
  2^32 bytes. Longer bodies wrap in the length table (`ToUint32`), and the
  reader then cannot recover them.
- Bundle.HandleUrls: states the reply for outcomes kept at their items'
  positions, which is the intended behaviour. The order as written is stated
  separately by Bundle.PushOrderMisattributes.
- Bundle.ItemRequests: gives each item the corrected Range header of the
  first Findings row (`RangeSpec.RangeHeader`), not the header written at
  src/index.ts:147. The two agree for zero or one pair and differ for two or
  more. That case is stated by Bundle.ItemRangeHeadersAsWritten.
- Bundle.FetchAll: sends the corrected Range header of Bundle.ItemRequests,
  not the one written at src/index.ts:147.
- Bundle.HandleUrls: also sends the corrected Range header of
  Bundle.ItemRequests, not the one written at src/index.ts:147.
- Bundle.ItemRangeHeaders: states the header the model sends, which reads
  back as the item's pairs. The header as written reads back that way only
  for one pair (Bundle.ItemRangeHeadersAsWritten). It also states only the
  Range header the branch sets itself. Each item request starts as a copy of
  the client's headers (src/index.ts:134-137, 144), with only x-urls,
  x-api-key and x-ranges removed. So a Range header sent by the client goes
  to every item without pairs, and line 148 replaces it only for items that
  have pairs.
- Bundle.ReadOutcomes: models the positional read phase, with item i's
  length and body at position i. It does not model the push order of
  src/index.ts:166-206, in which streamed bodies come last; that order is
  Bundle.PushOrderAsWritten, see Findings.
- Bundle.PushedCount: does not model a body stream whose `reader.read()`
  rejects (src/index.ts:189, 203). `Fetched` holds only streams that end.
  In the source such an item has already pushed status 1 (line 180) but
  never pushes a length or a body, and `Promise.allSettled` at line 206
  hides the error. The length table then has fewer than N entries, and
  every later item is read misaligned. The model's read phase
  (Bundle.ReadOutcomes), Bundle.ReadBody and Bundle.HandleUrls do not cover
  this case either.
- RangeSpec.RangeHeaderRoundTrip: states the corrected header, not the one
  written at src/index.ts:147. The header as written is described by
  RangeSpec.AsWrittenMalformed.

## Findings

| source | as written | input that shows it | evidently intended | confidence | as-written member | corrected member |
|---|---|---|---|---|---|---|
| src/index.ts:147 | every pair of a range-set is rendered with its own `bytes=` prefix and the pieces are joined with commas | x-ranges `[[[0,10],[20,30]]]` gives the header `bytes=0-10,bytes=20-30`, which is not a valid bytes-range value under section 14.1.2 of RFC 9110 | the unit once, then the comma-separated range-specs: `bytes=0-10,20-30` | not executed | RangeSpec.AsWrittenMalformed | RangeSpec.RangeHeaderRoundTrip |
| src/index.ts:166-206 | status flags are pushed in item order, but a streamed success pushes its length and body from a later callback, after every failure and bodiless success has pushed synchronously | item 0 answers 200 with body [1, 2] and item 1 fails: the length table reads 0, 2, so item 0 reads as an empty success and item 1 as a failure carrying item 0's bytes | the length and body of item i at position i | not executed | Bundle.PushOrderMisattributes | Bundle.ClientReadsItems |
