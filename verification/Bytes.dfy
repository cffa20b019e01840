/**
 The byte-level pieces a slice is made of: struct's little-endian integer fields, arrays of
 them, bitmaps, and the two paddings.
 */
module Bytes {

  type byte = b: int | 0 <= b < 256

  const INT32_MIN := -0x8000_0000
  const INT32_MAX := 0x7FFF_FFFF

  /** struct's format letters "B", "H", "i" and "I". */
  datatype Field = U8 | U16 | I32 | U32

  function Width(field: Field): nat {
    match field
    case U8 => 1
    case U16 => 2
    case I32 => 4
    case U32 => 4
  }

  /** The numbers struct packs into the field; any other raises struct.error. */
  predicate Fits(field: Field, n: int) {
    match field
    case U8 => 0 <= n < 0x100
    case U16 => 0 <= n < 0x1_0000
    case I32 => INT32_MIN <= n <= INT32_MAX
    case U32 => 0 <= n < 0x1_0000_0000
  }

  function LittleEndian(n: nat, width: nat): (bytes: seq<byte>)
    ensures |bytes| == width
  {
    if width == 0 then [] else [n % 256] + LittleEndian(n / 256, width - 1)
  }

  function FromLittleEndian(bytes: seq<byte>): (n: nat) {
    if bytes == [] then 0 else bytes[0] + 256 * FromLittleEndian(bytes[1..])
  }

  function Capacity(width: nat): nat {
    if width == 0 then 1 else 256 * Capacity(width - 1)
  }

  lemma {:induction false} LittleEndianRoundTrip(n: nat, width: nat)
    requires n < Capacity(width)
    ensures FromLittleEndian(LittleEndian(n, width)) == n
  {
    if width > 0 {
      LittleEndianRoundTrip(n / 256, width - 1);
      assert LittleEndian(n, width)[1..] == LittleEndian(n / 256, width - 1);
    }
  }

  function PackField(field: Field, n: int): (bytes: seq<byte>)
    requires Fits(field, n)
    ensures |bytes| == Width(field)
  {
    LittleEndian(if n < 0 then n + 0x1_0000_0000 else n, Width(field))
  }

  function UnpackField(field: Field, bytes: seq<byte>): (n: int)
    requires |bytes| == Width(field)
    ensures field != I32 ==> 0 <= n
  {
    var n := FromLittleEndian(bytes);
    if field == I32 && n > INT32_MAX then n - 0x1_0000_0000 else n
  }

  lemma FieldRoundTrip(field: Field, n: int)
    requires Fits(field, n)
    ensures UnpackField(field, PackField(field, n)) == n
  {
    assert Capacity(4) == 0x1_0000_0000 by {
      assert Capacity(1) == 256 * Capacity(0);
      assert Capacity(2) == 256 * Capacity(1);
      assert Capacity(3) == 256 * Capacity(2);
    }
    LittleEndianRoundTrip(if n < 0 then n + 0x1_0000_0000 else n, Width(field));
  }

  // ---------------------------------------------------------------------------------------
  // Arrays of one field

  function PackArray(field: Field, ns: seq<int>): (bytes: seq<byte>)
    requires forall n :: n in ns ==> Fits(field, n)
    ensures |bytes| == |ns| * Width(field)
  {
    if ns == [] then [] else
    PackField(field, ns[0]) + PackArray(field, ns[1..])
  }

  function UnpackArray(field: Field, bytes: seq<byte>, count: nat): (ns: seq<int>)
    requires |bytes| == count * Width(field)
    ensures |ns| == count
  {
    if count == 0 then [] else
    [UnpackField(field, bytes[..Width(field)])] + UnpackArray(field, bytes[Width(field)..], count - 1)
  }

  lemma {:induction false} ArrayRoundTrip(field: Field, ns: seq<int>)
    requires forall n :: n in ns ==> Fits(field, n)
    ensures UnpackArray(field, PackArray(field, ns), |ns|) == ns
  {
    if ns != [] {
      var bytes := PackArray(field, ns);
      assert bytes[..Width(field)] == PackField(field, ns[0]);
      assert bytes[Width(field)..] == PackArray(field, ns[1..]);
      FieldRoundTrip(field, ns[0]);
      ArrayRoundTrip(field, ns[1..]);
    }
  }

  // ---------------------------------------------------------------------------------------
  // Padding

  /** -(-byte_count // alignment) * alignment */
  function PaddedTo(byteCount: nat, alignment: nat): (padded: nat)
    requires alignment == 4 || alignment == 8
    ensures byteCount <= padded < byteCount + alignment && padded % alignment == 0
  {
    Padding(byteCount, alignment);
    (byteCount + alignment - 1) / alignment * alignment
  }

  lemma Padding(byteCount: nat, alignment: nat)
    requires alignment == 4 || alignment == 8
    ensures var padded := (byteCount + alignment - 1) / alignment * alignment; byteCount <= padded < byteCount + alignment && padded % alignment == 0
  {
    if alignment == 4 {
      assert (byteCount + 3) / 4 * 4 % 4 == 0;
    } else {
      assert (byteCount + 7) / 8 * 8 % 8 == 0;
    }
  }

  function Zeros(count: nat): (bytes: seq<byte>)
    ensures |bytes| == count
  {
    seq(count, _ => 0)
  }

  // ---------------------------------------------------------------------------------------
  // Bitmaps

  function BitmapBytes(count: nat): (size: nat)
    ensures count <= 8 * size
  {
    PaddedTo((count + 7) / 8, 4)
  }

  function PowerOfTwo(n: nat): nat {
    if n == 0 then 1 else 2 * PowerOfTwo(n - 1)
  }

  /** (b >> position) & 1 */
  predicate HasBit(b: nat, position: nat) {
    if position == 0 then b % 2 == 1 else HasBit(b / 2, position - 1)
  }

  /** b | (1 << position) */
  function SetBit(b: nat, position: nat): nat {
    if position == 0 then b / 2 * 2 + 1 else 2 * SetBit(b / 2, position - 1) + b % 2
  }

  lemma {:induction false} SetBitSetsOnly(b: nat, position: nat, other: nat)
    ensures HasBit(SetBit(b, position), other) <==> other == position || HasBit(b, other)
  {
    if position > 0 && other > 0 {
      SetBitSetsOnly(b / 2, position - 1, other - 1);
    }
  }

  lemma {:induction false} SetBitBound(b: nat, position: nat, bits: nat)
    requires b < PowerOfTwo(bits) && position < bits
    ensures SetBit(b, position) < PowerOfTwo(bits)
  {
    var half := PowerOfTwo(bits - 1);
    assert PowerOfTwo(bits) == 2 * half && b / 2 < half;
    if position > 0 {
      SetBitBound(b / 2, position - 1, bits - 1);
    }
  }

  function ByteWithBit(b: byte, position: nat): (c: byte)
    requires position < 8
    ensures c == SetBit(b, position)
  {
    assert PowerOfTwo(8) == 256 by {
      assert PowerOfTwo(4) == 16;
    }
    SetBitBound(b, position, 8);
    SetBit(b, position)
  }

  /** The bitmap with a bit set for each true flag among the first n, as the packing loops build it. */
  function BitmapUpTo(flags: seq<bool>, n: nat): (bitmap: seq<byte>)
    requires n <= |flags|
    ensures |bitmap| == BitmapBytes(|flags|)
  {
    if n == 0 then Zeros(BitmapBytes(|flags|)) else
    var bitmap := BitmapUpTo(flags, n - 1);
    if flags[n - 1] then bitmap[(n - 1) / 8 := ByteWithBit(bitmap[(n - 1) / 8], (n - 1) % 8)] else bitmap
  }

  function Bitmap(flags: seq<bool>): (bitmap: seq<byte>)
    ensures |bitmap| == BitmapBytes(|flags|)
  {
    BitmapUpTo(flags, |flags|)
  }

  /** (bitmap[index >> 3] >> (index & 7)) & 1 */
  predicate BitmapHas(bitmap: seq<byte>, index: nat)
    requires index / 8 < |bitmap|
  {
    HasBit(bitmap[index / 8], index % 8)
  }

  lemma {:induction false} ZeroHasNoBit(position: nat)
    ensures !HasBit(0, position)
  {
    if position > 0 {
      ZeroHasNoBit(position - 1);
    }
  }

  lemma SamePlace(a: nat, b: nat)
    ensures a / 8 == b / 8 && a % 8 == b % 8 <==> a == b
  {}

  lemma {:induction false} BitmapUpToReadsBack(flags: seq<bool>, n: nat, index: nat)
    requires n <= |flags| && index < |flags|
    ensures BitmapHas(BitmapUpTo(flags, n), index) <==> index < n && flags[index]
  {
    hide HasBit, SetBit, PaddedTo, PowerOfTwo;
    if n == 0 {
      ZeroHasNoBit(index % 8);
    } else {
      BitmapUpToReadsBack(flags, n - 1, index);
      SamePlace(n - 1, index);
      var before := BitmapUpTo(flags, n - 1);
      SetBitSetsOnly(before[(n - 1) / 8], (n - 1) % 8, index % 8);
    }
  }

  /** A packed bitmap gives every flag back. */
  lemma BitmapReadsBack(flags: seq<bool>, index: nat)
    requires index < |flags|
    ensures BitmapHas(Bitmap(flags), index) <==> flags[index]
  {
    BitmapUpToReadsBack(flags, |flags|, index);
  }
}
