/** The slice plan of getMediaDataList: a resource of known length is cut into
    fixed-width byte ranges, one per parallel range request. */
module SlicePlan {
  import opened Common

  /** The configured slice width, 40 MiB. */
  const SliceSize: nat := 1024 * 1024 * 40

  /** One unit of parallel work: the inclusive byte range [start, end] of slice `index`. */
  datatype Slice = Slice(index: nat, start: nat, end: int)

  /** The resource length taken from a Content-Length header: a missing or
      unparsable value counts as 0. */
  function SourceLength(contentLength: Option<string>): (length: nat)
    ensures contentLength.None? ==> length == 0
    ensures contentLength.Some? && ParseDecimal(contentLength.value).None? ==> length == 0
    ensures contentLength.Some? && ParseDecimal(contentLength.value).Some? ==>
              length == ParseDecimal(contentLength.value).value
  {
    match contentLength
    case None => 0
    case Some(text) =>
      match ParseDecimal(text)
      case None => 0
      case Some(n) => n
  }

  /** Math.ceil(length / width): the least count of slices whose total width reaches length. */
  function SliceCount(length: nat, width: nat): (n: nat)
    requires width > 0
    ensures n * width >= length
    ensures n > 0 ==> (n - 1) * width < length
  {
    (length + width - 1) / width
  }

  function Min(a: int, b: int): int
  {
    if a <= b then a else b
  }

  /** Slice i spans [i*width, min(i*width + width - 1, length - 1)]. */
  function SliceAt(length: nat, width: nat, i: nat): Slice
  {
    Slice(i, i * width, Min(i * width + width - 1, length - 1))
  }

  function Plan(length: nat, width: nat): seq<Slice>
    requires width > 0
  {
    seq(SliceCount(length, width), i requires 0 <= i => SliceAt(length, width, i))
  }

  /** The plan getMediaDataList builds from the Content-Length of the primary URL. */
  function MediaDataList(contentLength: Option<string>): seq<Slice>
  {
    Plan(SourceLength(contentLength), SliceSize)
  }

  /** The number of bytes a slice covers. */
  function Width(s: Slice): int
  {
    s.end - s.start + 1
  }

  lemma ZeroLengthNoSlices(width: nat)
    requires width > 0
    ensures Plan(0, width) == []
  {
  }

  /** A missing or unparsable Content-Length yields no slices at all. */
  lemma MissingLengthNoSlices(contentLength: Option<string>)
    requires contentLength.None? || ParseDecimal(contentLength.value).None?
    ensures MediaDataList(contentLength) == []
  {
    ZeroLengthNoSlices(SliceSize);
  }

  /** Shape of slice i: it starts at i*width, is non-empty, is at most width
      wide, and is exactly width wide unless it is the last. */
  lemma SliceShape(length: nat, width: nat, i: nat)
    requires width > 0 && i < SliceCount(length, width)
    ensures var s := Plan(length, width)[i];
      && s.index == i && s.start == i * width
      && 1 <= Width(s) <= width
      && (i + 1 < SliceCount(length, width) ==> Width(s) == width)
      && (i + 1 == SliceCount(length, width) ==> s.end == length - 1)
  {
    var n := SliceCount(length, width);
    MulMonotone(i, n - 1, width);
    if i + 1 < n {
      MulMonotone(i + 1, n - 1, width);
      assert (i + 1) * width == i * width + width;
    } else {
      assert n * width == i * width + width;
    }
  }

  /** Consecutive slices are contiguous: each starts right after the previous ends. */
  lemma Contiguous(length: nat, width: nat, i: nat)
    requires width > 0 && i + 1 < SliceCount(length, width)
    ensures Plan(length, width)[i + 1].start == Plan(length, width)[i].end + 1
  {
    SliceShape(length, width, i);
    SliceShape(length, width, i + 1);
    assert (i + 1) * width == i * width + width;
  }

  /** Every byte of [0, length) lies in exactly one slice, the one numbered byte / width. */
  lemma CoveredExactlyOnce(length: nat, width: nat, b: nat, i: nat)
    requires width > 0 && b < length && i < SliceCount(length, width)
    ensures b / width < SliceCount(length, width)
    ensures Plan(length, width)[i].start <= b <= Plan(length, width)[i].end <==> i == b / width
  {
    ByteInItsSlice(length, width, b);
    var s := Plan(length, width)[i];
    if s.start <= b <= s.end {
      OnlyItsSlice(length, width, b, i);
    }
  }

  lemma ByteInItsSlice(length: nat, width: nat, b: nat)
    requires width > 0 && b < length
    ensures b / width < SliceCount(length, width)
    ensures Plan(length, width)[b / width].start <= b <= Plan(length, width)[b / width].end
  {
    var n := SliceCount(length, width);
    var q := b / width;
    DivMod(b, width);
    if q >= n {
      MulMonotone(n, q, width);
    }
    assert Plan(length, width)[q] == SliceAt(length, width, q);
  }

  lemma OnlyItsSlice(length: nat, width: nat, b: nat, i: nat)
    requires width > 0 && i < SliceCount(length, width)
    requires Plan(length, width)[i].start <= b <= Plan(length, width)[i].end
    ensures i == b / width
  {
    var s := Plan(length, width)[i];
    assert s == SliceAt(length, width, i);
    assert i * width <= b <= i * width + width - 1;
    DivUnique(b, width, i, b - i * width);
  }

  /** The widths of the slices add up to the length: the plan covers [0, length) and no more. */
  function SumWidths(slices: seq<Slice>): int
  {
    if slices == [] then 0 else SumWidths(slices[..|slices| - 1]) + Width(slices[|slices| - 1])
  }

  lemma {:induction false} PrefixSum(length: nat, width: nat, k: nat)
    requires width > 0 && 0 < k <= SliceCount(length, width)
    ensures SumWidths(Plan(length, width)[..k]) == Plan(length, width)[k - 1].end + 1
  {
    var p := Plan(length, width);
    assert p[..k][..k - 1] == p[..k - 1];
    SliceShape(length, width, k - 1);
    if k > 1 {
      PrefixSum(length, width, k - 1);
      Contiguous(length, width, k - 2);
    } else {
      assert p[..k][..0] == [];
    }
  }

  lemma TotalWidth(length: nat, width: nat)
    requires width > 0
    ensures SumWidths(Plan(length, width)) == length
  {
    var p := Plan(length, width);
    var n := SliceCount(length, width);
    if n == 0 {
      assert p == [];
    } else {
      PrefixSum(length, width, n);
      assert p[..n] == p;
      SliceShape(length, width, n - 1);
    }
  }

  /** The last slice is length mod width wide, or width when width divides length. */
  lemma LastWidth(length: nat, width: nat)
    requires width > 0 && length > 0
    ensures var n := SliceCount(length, width);
      n > 0 && Width(Plan(length, width)[n - 1]) == (if length % width == 0 then width else length % width)
  {
    var n := SliceCount(length, width);
    var q, r := length / width, length % width;
    DivMod(length, width);
    if r == 0 {
      DivUnique(length + width - 1, width, q, width - 1);
      assert n == q && q > 0;
      MulSucc(q - 1, width);
    } else {
      MulSucc(q, width);
      DivUnique(length + width - 1, width, q + 1, r - 1);
      assert n == q + 1;
    }
    SliceShape(length, width, n - 1);
  }
}
