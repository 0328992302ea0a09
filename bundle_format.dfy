/** The binary payload of a bundle response: an LSB-first status bitmap of
    ceil(N/8) bytes, N unsigned 32-bit little-endian lengths, then the bodies
    back to back. A reader must know N to parse it. */
module BundleFormat {
  import opened Common

  /** What one item contributes: its status flag, its length and its body. */
  datatype Outcome = Outcome(success: bool, length: nat, body: Bytes)

  const U32Modulus: nat := 0x1_0000_0000

  /** The length of the status buffer: N / 8 when 8 divides N, else floor(N / 8) + 1. */
  function BitmapSize(n: nat): (size: nat)
    ensures 8 * size >= n && (size > 0 ==> 8 * (size - 1) < n)
  {
    if n % 8 == 0 then n / 8 else n / 8 + 1
  }

  /** 1 << k, for a bit position k of a byte. */
  function Mask(k: nat): Byte
    requires k < 8
  {
    (1 as bv8) << k
  }

  /** Bit k of byte b, counting from the least significant bit. */
  predicate Bit(b: Byte, k: nat)
    requires k < 8
  {
    b & Mask(k) != 0
  }

  lemma SetBit(b: Byte, m: nat, k: nat)
    requires m < 8 && k < 8
    ensures Bit(b | Mask(m), k) <==> Bit(b, k) || k == m
  {
  }

  lemma NoBitsInZero(k: nat)
    requires k < 8
    ensures !Bit(0, k)
  {
  }

  /** Bits 0..count-1 of the byte holding statuses base, base + 1, ...;
      positions past the end of the list stay 0. */
  function PackByte(status: seq<bool>, base: nat, count: nat): Byte
    requires count <= 8
  {
    if count == 0 then 0
    else
      var i := base + count - 1;
      PackByte(status, base, count - 1) | (if i < |status| && status[i] then Mask(count - 1) else 0)
  }

  lemma {:induction false} PackByteBits(status: seq<bool>, base: nat, count: nat, k: nat)
    requires count <= 8 && k < 8
    ensures Bit(PackByte(status, base, count), k) <==> k < count && base + k < |status| && status[base + k]
  {
    if count == 0 {
      NoBitsInZero(k);
    } else {
      PackByteBits(status, base, count - 1, k);
      var i := base + count - 1;
      var low := PackByte(status, base, count - 1);
      if i < |status| && status[i] {
        SetBit(low, count - 1, k);
      } else {
        assert low | 0 == low;
      }
    }
  }

  /** The status bitmap as a value. */
  function Bitmap(status: seq<bool>): (bitmap: seq<Byte>)
    ensures |bitmap| == BitmapSize(|status|)
  {
    seq(BitmapSize(|status|), j requires 0 <= j => PackByte(status, 8 * j, 8))
  }

  /** Bit k of byte j is 1 exactly when status 8j + k exists and is 1; padding bits are 0. */
  lemma BitmapBits(status: seq<bool>, j: nat, k: nat)
    requires j < BitmapSize(|status|) && k < 8
    ensures Bit(Bitmap(status)[j], k) <==> 8 * j + k < |status| && status[8 * j + k]
  {
    PackByteBits(status, 8 * j, 8, k);
  }

  /** How many of the statuses of byte j the first i iterations have visited. */
  function Visited(i: nat, j: nat): (count: nat)
    ensures count <= 8
  {
    if i <= 8 * j then 0 else if i - 8 * j >= 8 then 8 else i - 8 * j
  }

  /** Positions past the end of the list add nothing to a byte. */
  lemma {:induction false} PackBytePadding(status: seq<bool>, base: nat, count: nat)
    requires count <= 8 && (count == 8 || base + count >= |status|)
    ensures PackByte(status, base, count) == PackByte(status, base, 8)
    decreases 8 - count
  {
    if count < 8 {
      PackBytePadding(status, base, count + 1);
      assert PackByte(status, base, count) | 0 == PackByte(status, base, count);
    }
  }

  /** Iteration i visits only byte i / 8, where it adds bit i % 8. */
  lemma VisitStep(i: nat)
    ensures Visited(i, i / 8) == i % 8 && Visited(i + 1, i / 8) == i % 8 + 1
    ensures forall j: nat :: j != i / 8 ==> Visited(i + 1, j) == Visited(i, j)
  {
    DivMod(i, 8);
  }

  lemma VisitOwn(status: seq<bool>, j: nat, k: nat)
    requires k < 8 && 8 * j + k < |status|
    ensures status[8 * j + k] ==> PackByte(status, 8 * j, k + 1) == PackByte(status, 8 * j, k) | Mask(k)
    ensures !status[8 * j + k] ==> PackByte(status, 8 * j, k + 1) == PackByte(status, 8 * j, k)
  {
    assert PackByte(status, 8 * j, k) | 0 == PackByte(status, 8 * j, k);
  }

  /** Builds the status buffer as index.ts does: a zeroed buffer of
      BitmapSize(N) bytes, then `buffer[floor(i / 8)] |= 1 << i % 8` for every status 1. */
  method EncodeStatusBitmap(status: seq<bool>) returns (bitmap: seq<Byte>)
    ensures bitmap == Bitmap(status)
  {
    var statusBuffer := new Byte[BitmapSize(|status|)](_ => 0);
    for i := 0 to |status|
      invariant forall j :: 0 <= j < statusBuffer.Length ==>
                  statusBuffer[j] == PackByte(status, 8 * j, Visited(i, j))
    {
      VisitStep(i);
      VisitOwn(status, i / 8, i % 8);
      if status[i] {
        statusBuffer[i / 8] := statusBuffer[i / 8] | Mask(i % 8);
      }
    }
    bitmap := statusBuffer[..];
    forall j | 0 <= j < |bitmap|
      ensures bitmap[j] == Bitmap(status)[j]
    {
      PackBytePadding(status, 8 * j, Visited(|status|, j));
    }
  }

  /** DataView.setUint32 converts its value modulo 2^32. */
  function ToUint32(x: nat): (v: nat)
    ensures v < U32Modulus
  {
    x % U32Modulus
  }

  function ByteValue(b: Byte): (v: nat)
    ensures v < 0x100
  {
    b as nat
  }

  function Pow256(count: nat): (p: nat)
    ensures p > 0
  {
    if count == 0 then 1 else 0x100 * Pow256(count - 1)
  }

  /** The `count` little-endian base-256 digits of v, least significant first. */
  function LeDigits(v: nat, count: nat): (bytes: seq<Byte>)
    ensures |bytes| == count
  {
    if count == 0 then [] else [(v % 0x100) as Byte] + LeDigits(v / 0x100, count - 1)
  }

  /** The value of little-endian base-256 digits. */
  function LeValue(bytes: seq<Byte>): nat
  {
    if bytes == [] then 0 else ByteValue(bytes[0]) + 0x100 * LeValue(bytes[1..])
  }

  lemma {:induction false} LeValueBound(bytes: seq<Byte>)
    ensures LeValue(bytes) < Pow256(|bytes|)
  {
    if bytes != [] {
      LeValueBound(bytes[1..]);
      MulMonotone(LeValue(bytes[1..]), Pow256(|bytes| - 1) - 1, 0x100);
    }
  }

  lemma {:induction false} LeRoundTrip(v: nat, count: nat)
    requires v < Pow256(count)
    ensures LeValue(LeDigits(v, count)) == v
  {
    if count > 0 {
      var q, r := v / 0x100, v % 0x100;
      LeRoundTrip(q, count - 1);
      var bytes := LeDigits(v, count);
      assert bytes[1..] == LeDigits(q, count - 1);
      ByteRoundTrip(r);
      assert LeValue(bytes) == r + 0x100 * q;
    }
  }

  lemma ByteRoundTrip(r: nat)
    requires r < 0x100
    ensures ByteValue(r as Byte) == r
  {
  }

  /** The four bytes setUint32(offset, v, true) writes. */
  function Le32(v: nat): (bytes: seq<Byte>)
    requires v < U32Modulus
    ensures |bytes| == 4
  {
    LeDigits(v, 4)
  }

  /** The unsigned 32-bit little-endian value of four bytes (getUint32(offset, true)). */
  function U32Value(bytes: seq<Byte>): (v: nat)
    requires |bytes| == 4
    ensures v < U32Modulus
  {
    LeValueBound(bytes);
    assert Pow256(4) == U32Modulus;
    LeValue(bytes)
  }

  lemma Le32RoundTrip(v: nat)
    requires v < U32Modulus
    ensures U32Value(Le32(v)) == v
  {
    assert Pow256(4) == U32Modulus;
    LeRoundTrip(v, 4);
  }

  /** The length table as a value: one four-byte entry per length, in order. */
  function LengthTable(lengths: seq<nat>): (table: seq<Byte>)
    ensures |table| == 4 * |lengths|
  {
    if lengths == [] then []
    else LengthTable(lengths[..|lengths| - 1]) + Le32(ToUint32(lengths[|lengths| - 1]))
  }

  /** Bytes 4i..4i+3 of the table are length i, reduced modulo 2^32, as an
      unsigned 32-bit little-endian value. */
  lemma {:induction false} LengthTableEntry(lengths: seq<nat>, i: nat)
    requires i < |lengths|
    ensures LengthTable(lengths)[4 * i..4 * i + 4] == Le32(ToUint32(lengths[i]))
    ensures U32Value(LengthTable(lengths)[4 * i..4 * i + 4]) == ToUint32(lengths[i])
  {
    var n := |lengths|;
    var front := LengthTable(lengths[..n - 1]);
    if i < n - 1 {
      LengthTableEntry(lengths[..n - 1], i);
      assert LengthTable(lengths)[4 * i..4 * i + 4] == front[4 * i..4 * i + 4];
    } else {
      assert LengthTable(lengths)[4 * i..4 * i + 4] == LengthTable(lengths)[|front|..];
    }
    Le32RoundTrip(ToUint32(lengths[i]));
  }

  /** Builds the length table as index.ts does: a zeroed buffer of 4N bytes and
      setUint32(i * 4, length, true) for every length. */
  method EncodeLengthTable(lengths: seq<nat>) returns (table: seq<Byte>)
    ensures table == LengthTable(lengths)
  {
    var lengthsBuffer := new Byte[4 * |lengths|](_ => 0);
    for i := 0 to |lengths|
      invariant lengthsBuffer[..4 * i] == LengthTable(lengths[..i])
    {
      var bytes := Le32(ToUint32(lengths[i]));
      ghost var front := lengthsBuffer[..4 * i];
      lengthsBuffer[4 * i] := bytes[0];
      lengthsBuffer[4 * i + 1] := bytes[1];
      lengthsBuffer[4 * i + 2] := bytes[2];
      lengthsBuffer[4 * i + 3] := bytes[3];
      assert lengthsBuffer[..4 * (i + 1)] == front + bytes;
      assert lengths[..i + 1][..i] == lengths[..i];
    }
    assert lengths[..|lengths|] == lengths;
    table := lengthsBuffer[..];
  }

  /** The whole payload: bitmap, then length table, then the bodies with no delimiters. */
  function Payload(status: seq<bool>, lengths: seq<nat>, bodies: seq<Bytes>): Bytes
  {
    Bitmap(status) + LengthTable(lengths) + Flatten(bodies)
  }

  /** The serialisation step: the status buffer, the length buffer and every body
      pushed in order onto the list of blob parts, which the Blob lays end to end. */
  method EncodeBundle(status: seq<bool>, lengths: seq<nat>, bodies: seq<Bytes>) returns (payload: Bytes)
    ensures payload == Payload(status, lengths, bodies)
  {
    var statusBuffer := EncodeStatusBitmap(status);
    var lengthsBuffer := EncodeLengthTable(lengths);
    var combinedBlobParts: seq<Bytes> := [statusBuffer, lengthsBuffer];
    for i := 0 to |bodies|
      invariant combinedBlobParts == [statusBuffer, lengthsBuffer] + bodies[..i]
    {
      combinedBlobParts := combinedBlobParts + [bodies[i]];
    }
    assert bodies[..|bodies|] == bodies;
    payload := Flatten(combinedBlobParts);
    FlattenConcat([statusBuffer, lengthsBuffer], bodies);
    assert Flatten([statusBuffer, lengthsBuffer]) == Flatten([statusBuffer]) + lengthsBuffer;
    assert [statusBuffer, lengthsBuffer][..1] == [statusBuffer];
    assert Flatten([statusBuffer]) == Flatten([]) + statusBuffer;
  }

  function Statuses(outcomes: seq<Outcome>): (s: seq<bool>)
    ensures |s| == |outcomes| && forall i :: 0 <= i < |s| ==> s[i] == outcomes[i].success
  {
    seq(|outcomes|, i requires 0 <= i < |outcomes| => outcomes[i].success)
  }

  function Lengths(outcomes: seq<Outcome>): (s: seq<nat>)
    ensures |s| == |outcomes| && forall i :: 0 <= i < |s| ==> s[i] == outcomes[i].length
  {
    seq(|outcomes|, i requires 0 <= i < |outcomes| => outcomes[i].length)
  }

  function BodiesOf(outcomes: seq<Outcome>): (s: seq<Bytes>)
    ensures |s| == |outcomes| && forall i :: 0 <= i < |s| ==> s[i] == outcomes[i].body
  {
    seq(|outcomes|, i requires 0 <= i < |outcomes| => outcomes[i].body)
  }

  /** The payload of a list of outcomes, one entry per position. */
  function Encode(outcomes: seq<Outcome>): Bytes
  {
    Payload(Statuses(outcomes), Lengths(outcomes), BodiesOf(outcomes))
  }

  /** An outcome the table can describe: its length is its body's and fits in 32 bits. */
  predicate Describable(o: Outcome)
  {
    o.length == |o.body| && o.length < U32Modulus
  }

  /** Splits the concatenated bodies by the lengths; None unless they use the data exactly. */
  function SplitBodies(data: Bytes, lengths: seq<nat>): Option<seq<Bytes>>
    decreases |lengths|
  {
    if lengths == [] then (if data == [] then Some([]) else None)
    else if |data| < lengths[0] then None
    else match SplitBodies(data[lengths[0]..], lengths[1..])
      case None => None
      case Some(rest) => Some([data[..lengths[0]]] + rest)
  }

  function Zip(status: seq<bool>, lengths: seq<nat>, bodies: seq<Bytes>): seq<Outcome>
    requires |status| == |lengths| == |bodies|
  {
    seq(|status|, i requires 0 <= i < |status| => Outcome(status[i], lengths[i], bodies[i]))
  }

  /** The first n bits of the bitmap, LSB first within each byte. */
  function ReadStatuses(n: nat, bitmap: Bytes): (status: seq<bool>)
    requires |bitmap| >= BitmapSize(n)
    ensures |status| == n
  {
    seq(n, i requires 0 <= i < n => Bit(bitmap[i / 8], i % 8))
  }

  /** The first n unsigned 32-bit little-endian entries of the table. */
  function ReadLengths(n: nat, table: Bytes): (lengths: seq<nat>)
    requires |table| >= 4 * n
    ensures |lengths| == n
  {
    seq(n, i requires 0 <= i < n => U32Value(table[4 * i..4 * i + 4]))
  }

  /** Reads a payload for a known item count n. */
  function Decode(n: nat, payload: Bytes): Option<seq<Outcome>>
  {
    var size := BitmapSize(n);
    if |payload| < size + 4 * n then None
    else
      var status := ReadStatuses(n, payload[..size]);
      var lengths := ReadLengths(n, payload[size..size + 4 * n]);
      match SplitBodies(payload[size + 4 * n..], lengths)
      case None => None
      case Some(bodies) => if |bodies| == n then Some(Zip(status, lengths, bodies)) else None
  }

  lemma ReadStatusesBitmap(status: seq<bool>)
    ensures ReadStatuses(|status|, Bitmap(status)) == status
  {
    var read := ReadStatuses(|status|, Bitmap(status));
    forall i | 0 <= i < |status|
      ensures read[i] == status[i]
    {
      BitmapBits(status, i / 8, i % 8);
    }
  }

  lemma ReadLengthsTable(lengths: seq<nat>)
    requires forall i :: 0 <= i < |lengths| ==> lengths[i] < U32Modulus
    ensures ReadLengths(|lengths|, LengthTable(lengths)) == lengths
  {
    var read := ReadLengths(|lengths|, LengthTable(lengths));
    forall i | 0 <= i < |lengths|
      ensures read[i] == lengths[i]
    {
      LengthTableEntry(lengths, i);
      DivUnique(lengths[i], U32Modulus, 0, lengths[i]);
    }
  }

  lemma {:induction false} SplitFlatten(outcomes: seq<Outcome>)
    requires forall i :: 0 <= i < |outcomes| ==> Describable(outcomes[i])
    ensures SplitBodies(Flatten(BodiesOf(outcomes)), Lengths(outcomes)) == Some(BodiesOf(outcomes))
  {
    if outcomes != [] {
      var bodies := BodiesOf(outcomes);
      assert bodies == [bodies[0]] + BodiesOf(outcomes[1..]);
      assert Lengths(outcomes)[1..] == Lengths(outcomes[1..]);
      FlattenCons(bodies[0], BodiesOf(outcomes[1..]));
      SplitFlatten(outcomes[1..]);
      var data := Flatten(bodies);
      assert data[..outcomes[0].length] == bodies[0];
      assert data[outcomes[0].length..] == Flatten(BodiesOf(outcomes[1..]));
    } else {
      assert BodiesOf(outcomes) == [];
    }
  }

  /** Round trip: decoding with the known count recovers every (status, length, body) triple. */
  lemma DecodeEncode(outcomes: seq<Outcome>)
    requires forall i :: 0 <= i < |outcomes| ==> Describable(outcomes[i])
    ensures Decode(|outcomes|, Encode(outcomes)) == Some(outcomes)
  {
    var n := |outcomes|;
    var size := BitmapSize(n);
    var bitmap := Bitmap(Statuses(outcomes));
    var table := LengthTable(Lengths(outcomes));
    var flat := Flatten(BodiesOf(outcomes));
    var payload := Encode(outcomes);
    assert payload == bitmap + table + flat;
    assert payload[..size] == bitmap;
    assert payload[size..size + 4 * n] == table;
    assert payload[size + 4 * n..] == flat;
    ReadStatusesBitmap(Statuses(outcomes));
    ReadLengthsTable(Lengths(outcomes));
    SplitFlatten(outcomes);
    assert Zip(Statuses(outcomes), Lengths(outcomes), BodiesOf(outcomes)) == outcomes;
  }

  function SumLengths(outcomes: seq<Outcome>): nat
  {
    if outcomes == [] then 0 else SumLengths(outcomes[..|outcomes| - 1]) + outcomes[|outcomes| - 1].length
  }

  lemma {:induction false} BodiesLength(outcomes: seq<Outcome>)
    requires forall i :: 0 <= i < |outcomes| ==> outcomes[i].length == |outcomes[i].body|
    ensures |Flatten(BodiesOf(outcomes))| == SumLengths(outcomes)
  {
    if outcomes != [] {
      var n := |outcomes|;
      assert BodiesOf(outcomes)[..n - 1] == BodiesOf(outcomes[..n - 1]);
      BodiesLength(outcomes[..n - 1]);
    }
  }

  /** The payload is ceil(N/8) + 4N + the sum of the lengths bytes long; the
      table is 4N bytes even when a length wraps, so only the lengths need to
      be the bodies' own. */
  lemma PayloadSize(outcomes: seq<Outcome>)
    requires forall i :: 0 <= i < |outcomes| ==> outcomes[i].length == |outcomes[i].body|
    ensures |Encode(outcomes)| == BitmapSize(|outcomes|) + 4 * |outcomes| + SumLengths(outcomes)
  {
    BodiesLength(outcomes);
  }

  /** Three items of which the middle one failed: the bitmap is the single byte
      0b101, the second length entry is 0, and the bodies are those of items 0 and 2. */
  lemma MiddleItemFailed(b0: Bytes, b2: Bytes)
    requires |b0| < U32Modulus && |b2| < U32Modulus
    ensures var os := [Outcome(true, |b0|, b0), Outcome(false, 0, []), Outcome(true, |b2|, b2)];
      && Bitmap(Statuses(os)) == [0x05]
      && LengthTable(Lengths(os))[4..8] == [0, 0, 0, 0]
      && Encode(os)[1 + 12..] == b0 + b2
  {
    var os := [Outcome(true, |b0|, b0), Outcome(false, 0, []), Outcome(true, |b2|, b2)];
    assert Statuses(os) == [true, false, true];
    OneZeroOneBitmap();
    LengthTableEntry(Lengths(os), 1);
    assert Le32(ToUint32(0)) == [0, 0, 0, 0];
    assert BodiesOf(os) == [b0, [], b2];
    ThreeBodies(b0, b2);
  }

  lemma OneZeroOneBitmap()
    ensures Bitmap([true, false, true]) == [0x05]
  {
    var status := [true, false, true];
    assert PackByte(status, 0, 1) == 0x01;
    assert PackByte(status, 0, 2) == 0x01;
    assert PackByte(status, 0, 3) == 0x05;
    PackBytePadding(status, 0, 3);
  }

  lemma ThreeBodies(b0: Bytes, b2: Bytes)
    ensures Flatten([b0, [], b2]) == b0 + b2
  {
    assert [b0, [], b2][..2] == [b0, []];
    assert [b0, []][..1] == [b0];
    assert [b0][..0] == [];
    assert Flatten([b0]) == b0;
    assert Flatten([b0, []]) == b0;
    assert Flatten([b0, [], b2]) == Flatten([b0, []]) + b2;
  }
}
