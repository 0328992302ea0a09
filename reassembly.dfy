/** processMediaDataList: sort the slice results by index, in place, and
    enqueue their buffers in that order as the chunks of one stream. */
module Reassembly {
  import opened Common
  import opened DashPart
  import SlicePlan

  /** Ascending slice index, as the comparator Number(aIndex) - Number(bIndex) orders them. */
  predicate SortedByIndex(s: seq<Part>)
  {
    forall p, q :: 0 <= p < q < |s| ==> s[p].index <= s[q].index
  }

  /** No two different parts share an index: the results of one download. */
  predicate IndexDeterminesPart(m: multiset<Part>)
  {
    forall x, y :: x in m && y in m && x.index == y.index ==> x == y
  }

  /** The buffers of the parts, in the order the parts are listed. */
  function Bodies(s: seq<Part>): (chunks: seq<Bytes>)
    ensures |chunks| == |s| && forall i :: 0 <= i < |s| ==> chunks[i] == s[i].body
  {
    seq(|s|, i requires 0 <= i < |s| => s[i].body)
  }

  /** The in-place sort: insertion by adjacent swaps. */
  method SortByIndex(a: array<Part>)
    modifies a
    ensures SortedByIndex(a[..])
    ensures multiset(a[..]) == multiset(old(a[..]))
  {
    var i := 0;
    while i < a.Length
      invariant 0 <= i <= a.Length
      invariant forall p, q :: 0 <= p < q < i ==> a[p].index <= a[q].index
      invariant multiset(a[..]) == multiset(old(a[..]))
    {
      Insert(a, i);
      i := i + 1;
    }
  }

  /** Moves a[i] left past every larger index, extending the sorted prefix by one. */
  method Insert(a: array<Part>, i: nat)
    requires i < a.Length
    requires forall p, q :: 0 <= p < q < i ==> a[p].index <= a[q].index
    modifies a
    ensures forall p, q :: 0 <= p < q <= i ==> a[p].index <= a[q].index
    ensures multiset(a[..]) == multiset(old(a[..]))
  {
    var j := i;
    while j > 0 && a[j - 1].index > a[j].index
      invariant 0 <= j <= i
      invariant Inserting(a, i, j)
      invariant multiset(a[..]) == multiset(old(a[..]))
    {
      SwapDown(a, i, j);
      j := j - 1;
    }
  }

  /** While a[i] travels left: a[0..i] is sorted except at the travelling
      position j, and everything after j is larger than a[j]. */
  predicate Inserting(a: array<Part>, i: nat, j: nat)
    requires j <= i < a.Length
    reads a
  {
    && (forall p, q :: 0 <= p < q <= i && p != j && q != j ==> a[p].index <= a[q].index)
    && (forall q :: j < q <= i ==> a[j].index < a[q].index)
  }

  /** One adjacent swap of the insertion. */
  method SwapDown(a: array<Part>, i: nat, j: nat)
    requires 0 < j <= i < a.Length && Inserting(a, i, j)
    requires a[j - 1].index > a[j].index
    modifies a
    ensures Inserting(a, i, j - 1)
    ensures multiset(a[..]) == multiset(old(a[..]))
  {
    a[j - 1], a[j] := a[j], a[j - 1];
  }

  /** Sorts the list in place and returns the chunks the stream enqueues, one
      buffer per part in ascending index order. */
  method ProcessMediaDataList(mediaDataList: array<Part>) returns (chunks: seq<Bytes>)
    modifies mediaDataList
    ensures SortedByIndex(mediaDataList[..])
    ensures multiset(mediaDataList[..]) == multiset(old(mediaDataList[..]))
    ensures chunks == Bodies(mediaDataList[..])
  {
    SortByIndex(mediaDataList);
    chunks := [];
    for k := 0 to mediaDataList.Length
      invariant chunks == Bodies(mediaDataList[..k])
    {
      chunks := chunks + [mediaDataList[k].body];
    }
    assert mediaDataList[..mediaDataList.Length] == mediaDataList[..];
  }

  /** Two index-sorted lists of the same parts start with the same part. */
  lemma SortedHeadsEqual(x: seq<Part>, y: seq<Part>)
    requires x != [] && SortedByIndex(x) && SortedByIndex(y)
    requires multiset(x) == multiset(y)
    requires IndexDeterminesPart(multiset(x))
    ensures y != [] && x[0] == y[0]
  {
    assert x[0] in multiset(y);
    var j :| 0 <= j < |y| && y[j] == x[0];
    assert y[0] in multiset(x);
    var i :| 0 <= i < |x| && x[i] == y[0];
    assert x[0].index <= x[i].index;
    assert y[0].index <= y[j].index;
  }

  lemma DropHead(x: seq<Part>)
    requires x != []
    ensures multiset(x) == multiset{x[0]} + multiset(x[1..])
    ensures SortedByIndex(x) ==> SortedByIndex(x[1..])
  {
    assert x == [x[0]] + x[1..];
  }

  lemma IndexDeterminesSub(m: multiset<Part>, sub: multiset<Part>)
    requires IndexDeterminesPart(m) && sub <= m
    ensures IndexDeterminesPart(sub)
  {
  }

  /** Two index-sorted arrangements of the same parts agree at the head, and
      their tails are again two such arrangements. */
  lemma SameHeadSameTails(x: seq<Part>, y: seq<Part>)
    requires x != [] && SortedByIndex(x) && SortedByIndex(y)
    requires multiset(x) == multiset(y)
    requires IndexDeterminesPart(multiset(x))
    ensures y != [] && x[0] == y[0]
    ensures SortedByIndex(x[1..]) && SortedByIndex(y[1..])
    ensures multiset(x[1..]) == multiset(y[1..])
    ensures IndexDeterminesPart(multiset(x[1..]))
  {
    SortedHeadsEqual(x, y);
    DropHead(x);
    DropHead(y);
    IndexDeterminesSub(multiset(x), multiset(x[1..]));
  }

  /** Two index-sorted arrangements of the same parts are the same list, when
      parts sharing an index are equal. */
  lemma {:induction false} SortedPermutationUnique(x: seq<Part>, y: seq<Part>)
    requires SortedByIndex(x) && SortedByIndex(y)
    requires multiset(x) == multiset(y)
    requires IndexDeterminesPart(multiset(x))
    ensures x == y
  {
    if x != [] {
      SameHeadSameTails(x, y);
      SortedPermutationUnique(x[1..], y[1..]);
      assert x == [x[0]] + x[1..] && y == [y[0]] + y[1..];
    } else {
      assert |multiset(y)| == 0;
    }
  }

  /** The stream's bytes do not depend on the order in which the slices
      completed: any two completion orders of the same parts, once sorted,
      flatten to the same bytes. */
  lemma CompletionOrderIrrelevant(p: seq<Part>, q: seq<Part>, x: seq<Part>, y: seq<Part>)
    requires multiset(p) == multiset(q) && IndexDeterminesPart(multiset(p))
    requires SortedByIndex(x) && multiset(x) == multiset(p)
    requires SortedByIndex(y) && multiset(y) == multiset(q)
    ensures Flatten(Bodies(x)) == Flatten(Bodies(y))
  {
    SortedPermutationUnique(x, y);
  }

  /** The sum of the buffer lengths of a list of parts. */
  function SumBodyLengths(s: seq<Part>): nat
  {
    if s == [] then 0 else |s[0].body| + SumBodyLengths(s[1..])
  }

  lemma {:induction false} SumBodyLengthsConcat(s: seq<Part>, t: seq<Part>)
    ensures SumBodyLengths(s + t) == SumBodyLengths(s) + SumBodyLengths(t)
  {
    if s != [] {
      assert (s + t)[0] == s[0];
      assert (s + t)[1..] == s[1..] + t;
      SumBodyLengthsConcat(s[1..], t);
    } else {
      assert s + t == t;
    }
  }

  /** Taking out the part at position j. */
  lemma RemoveAt(t: seq<Part>, j: nat)
    requires j < |t|
    ensures multiset(t[..j] + t[j + 1..]) == multiset(t) - multiset{t[j]}
    ensures SumBodyLengths(t) == SumBodyLengths(t[..j] + t[j + 1..]) + |t[j].body|
  {
    assert t == t[..j] + ([t[j]] + t[j + 1..]);
    assert multiset(t) == multiset(t[..j]) + multiset{t[j]} + multiset(t[j + 1..]);
    SumBodyLengthsConcat(t[..j], [t[j]] + t[j + 1..]);
    SumBodyLengthsConcat(t[..j], t[j + 1..]);
    assert ([t[j]] + t[j + 1..])[1..] == t[j + 1..];
  }

  /** Reordering the parts does not change the sum of their lengths. */
  lemma {:induction false} SumBodyLengthsPermutation(s: seq<Part>, t: seq<Part>)
    requires multiset(s) == multiset(t)
    ensures SumBodyLengths(s) == SumBodyLengths(t)
    decreases |s|
  {
    if s != [] {
      assert s[0] in multiset(t);
      var j :| 0 <= j < |t| && t[j] == s[0];
      RemoveAt(t, j);
      DropHead(s);
      assert multiset(s[1..]) == multiset(s) - multiset{s[0]};
      SumBodyLengthsPermutation(s[1..], t[..j] + t[j + 1..]);
    } else {
      assert t == [];
    }
  }

  lemma {:induction false} FlattenBodiesLength(s: seq<Part>)
    ensures |Flatten(Bodies(s))| == SumBodyLengths(s)
  {
    if s != [] {
      FlattenBodiesLength(s[1..]);
      assert Bodies(s) == [s[0].body] + Bodies(s[1..]);
      FlattenCons(s[0].body, Bodies(s[1..]));
    }
  }

  /** The stream is as long as all the buffers of the input put together,
      whatever order the input list was in. */
  lemma StreamLength(input: seq<Part>, sorted: seq<Part>)
    requires multiset(sorted) == multiset(input)
    ensures |Flatten(Bodies(sorted))| == SumBodyLengths(input)
  {
    FlattenBodiesLength(sorted);
    SumBodyLengthsPermutation(sorted, input);
  }

  /** The parts an error-free download of `resource` produces: slice i holds
      the bytes of its range. */
  function SliceParts(resource: Bytes, width: nat): (parts: seq<Part>)
    requires width > 0
    ensures |parts| == |SlicePlan.Plan(|resource|, width)|
  {
    var plan := SlicePlan.Plan(|resource|, width);
    seq(|plan|, i requires 0 <= i < |plan| =>
      SlicePlan.SliceShape(|resource|, width, i);
      Part(i, resource[plan[i].start..plan[i].end + 1]))
  }

  lemma BodiesSnoc(parts: seq<Part>, k: nat)
    requires 0 < k <= |parts|
    ensures Flatten(Bodies(parts[..k])) == Flatten(Bodies(parts[..k - 1])) + parts[k - 1].body
  {
    assert Bodies(parts[..k])[..k - 1] == Bodies(parts[..k - 1]);
  }

  /** Part i holds slice i's range of the resource. */
  lemma SlicePartAt(resource: Bytes, width: nat, i: nat)
    requires width > 0 && i < |SliceParts(resource, width)|
    ensures var s := SlicePlan.Plan(|resource|, width)[i];
      && 0 <= s.start <= s.end + 1 <= |resource|
      && SliceParts(resource, width)[i] == Part(i, resource[s.start..s.end + 1])
  {
    SlicePlan.SliceShape(|resource|, width, i);
  }

  lemma {:induction false} SlicePartsPrefix(resource: Bytes, width: nat, k: nat)
    requires width > 0 && 0 < k <= |SliceParts(resource, width)|
    ensures Flatten(Bodies(SliceParts(resource, width)[..k]))
         == resource[..SlicePlan.Plan(|resource|, width)[k - 1].end + 1]
  {
    var parts := SliceParts(resource, width);
    var plan := SlicePlan.Plan(|resource|, width);
    BodiesSnoc(parts, k);
    SlicePartAt(resource, width, k - 1);
    if k == 1 {
      SlicePlan.SliceShape(|resource|, width, 0);
      assert parts[..0] == [];
    } else {
      SlicePartsPrefix(resource, width, k - 1);
      SlicePartAt(resource, width, k - 2);
      SlicePlan.Contiguous(|resource|, width, k - 2);
      assert resource[..plan[k - 1].end + 1]
          == resource[..plan[k - 2].end + 1] + resource[plan[k - 1].start..plan[k - 1].end + 1];
    }
  }

  lemma SlicePartsOrdered(resource: Bytes, width: nat)
    requires width > 0
    ensures SortedByIndex(SliceParts(resource, width))
    ensures IndexDeterminesPart(multiset(SliceParts(resource, width)))
  {
    var parts := SliceParts(resource, width);
    forall x: Part, y: Part | x in multiset(parts) && y in multiset(parts) && x.index == y.index
      ensures x == y
    {
      var i :| 0 <= i < |parts| && parts[i] == x;
      var j :| 0 <= j < |parts| && parts[j] == y;
    }
  }

  /** Reassembly restores the resource: whatever order the slices complete
      in, sorting them and concatenating their buffers gives back [0, length). */
  lemma Reassembles(resource: Bytes, width: nat, completed: seq<Part>, sorted: seq<Part>)
    requires width > 0
    requires multiset(completed) == multiset(SliceParts(resource, width))
    requires SortedByIndex(sorted) && multiset(sorted) == multiset(completed)
    ensures Flatten(Bodies(sorted)) == resource
  {
    SlicePartsOrdered(resource, width);
    SortedPermutationUnique(sorted, SliceParts(resource, width));
    SlicePartsWhole(resource, width);
  }

  /** The parts of one download, in index order, concatenate to the resource. */
  lemma SlicePartsWhole(resource: Bytes, width: nat)
    requires width > 0
    ensures Flatten(Bodies(SliceParts(resource, width))) == resource
  {
    var parts := SliceParts(resource, width);
    var n := |parts|;
    if n > 0 {
      SlicePartsPrefix(resource, width, n);
      SlicePlan.SliceShape(|resource|, width, n - 1);
      assert parts[..n] == parts;
    } else {
      assert SlicePlan.SliceCount(|resource|, width) == 0;
    }
  }
}
