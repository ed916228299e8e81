/**
 * Fixed-width integer fields of the control ROM and the host-order-independent
 * routines that read them (`_le_native` and the `_native_endian_*` family).
 *
 * Memory is a sequence of bytes. A host of a given byte order turns the bytes
 * of an integer object into a value with `Value`; `Bytes` is the inverse. The
 * ROM stores its fields in one fixed order, `RomByteOrder`.
 */
module Endian {

  type uint8 = x: int | 0 <= x < 0x100
  type uint16 = x: int | 0 <= x < 0x1_0000
  type uint32 = x: int | 0 <= x < 0x1_0000_0000
  type int8 = x: int | -0x80 <= x < 0x80
  type int32 = x: int | -0x8000_0000 <= x < 0x8000_0000

  datatype ByteOrder = LittleEndian | BigEndian

  /** Byte order of the multi-byte fields stored in the control ROM. */
  const RomByteOrder: ByteOrder := LittleEndian

  function Pow256(n: nat): (p: nat)
    ensures p >= 1
  {
    if n == 0 then 1 else 0x100 * Pow256(n - 1)
  }

  function Reverse<T>(s: seq<T>): (r: seq<T>)
    ensures |r| == |s|
  {
    if s == [] then [] else Reverse(s[1..]) + [s[0]]
  }

  lemma {:induction false} ReverseAt<T>(s: seq<T>, k: nat)
    requires k < |s|
    ensures Reverse(s)[k] == s[|s| - 1 - k]
  {
    if k < |s| - 1 {
      ReverseAt(s[1..], k);
    }
  }

  lemma ReverseReverse<T>(s: seq<T>)
    ensures Reverse(Reverse(s)) == s
  {
    forall k | 0 <= k < |s|
      ensures Reverse(Reverse(s))[k] == s[k]
    {
      ReverseAt(Reverse(s), k);
      ReverseAt(s, |s| - 1 - k);
    }
  }

  /** Value of an unsigned integer whose bytes are given least significant first. */
  function LeValue(s: seq<uint8>): nat
  {
    if s == [] then 0 else s[0] + 0x100 * LeValue(s[1..])
  }

  lemma {:induction false} LeValueBound(s: seq<uint8>)
    ensures LeValue(s) < Pow256(|s|)
  {
    if s != [] {
      LeValueBound(s[1..]);
    }
  }

  /** Least-significant-first bytes of `v` as a `width`-byte unsigned integer. */
  function LeBytes(width: nat, v: nat): (s: seq<uint8>)
    requires v < Pow256(width)
    ensures |s| == width
  {
    if width == 0 then [] else [v % 0x100] + LeBytes(width - 1, v / 0x100)
  }

  lemma {:induction false} LeValueOfLeBytes(width: nat, v: nat)
    requires v < Pow256(width)
    ensures LeValue(LeBytes(width, v)) == v
  {
    if width > 0 {
      LeValueOfLeBytes(width - 1, v / 0x100);
    }
  }

  lemma {:induction false} LeBytesOfLeValue(s: seq<uint8>)
    ensures LeValue(s) < Pow256(|s|)
    ensures LeBytes(|s|, LeValue(s)) == s
  {
    LeValueBound(s);
    if s != [] {
      LeBytesOfLeValue(s[1..]);
      LeValueBound(s[1..]);
    }
  }

  /** The unsigned integer that a host of byte order `order` reads from the bytes `s`. */
  function Value(order: ByteOrder, s: seq<uint8>): (v: nat)
    ensures v < Pow256(|s|)
  {
    LeValueBound(s);
    LeValueBound(Reverse(s));
    match order
    case LittleEndian => LeValue(s)
    case BigEndian => LeValue(Reverse(s))
  }

  /** The bytes in which a host of byte order `order` stores `v` as a `width`-byte integer. */
  function Bytes(order: ByteOrder, width: nat, v: nat): (s: seq<uint8>)
    requires v < Pow256(width)
    ensures |s| == width
  {
    match order
    case LittleEndian => LeBytes(width, v)
    case BigEndian => Reverse(LeBytes(width, v))
  }

  /** Storing a value and reading it back in the same order gives the value. */
  lemma ValueOfBytes(order: ByteOrder, width: nat, v: nat)
    requires v < Pow256(width)
    ensures Value(order, Bytes(order, width, v)) == v
  {
    LeValueOfLeBytes(width, v);
    if order == BigEndian {
      ReverseReverse(LeBytes(width, v));
    }
  }

  /** Reading bytes and storing the value back in the same order gives the bytes. */
  lemma BytesOfValue(order: ByteOrder, s: seq<uint8>)
    ensures Bytes(order, |s|, Value(order, s)) == s
  {
    match order
    case LittleEndian =>
      LeBytesOfLeValue(s);
    case BigEndian =>
      LeBytesOfLeValue(Reverse(s));
      ReverseReverse(s);
  }

  /**
   * `_le_native`: stores the 16-bit value 1 in host memory and tests whether
   * its first byte is the non-zero one.
   */
  function LeNative(host: ByteOrder): (le: bool)
    ensures le <==> host == LittleEndian
  {
    assert LeBytes(2, 1) == [1, 0];
    Bytes(host, 2, 1)[0] != 0
  }

  /**
   * The conversion shared by the `_native_endian_*` routines: the field bytes
   * are copied into host memory as they are when the host order reported by
   * `_le_native` equals the stored order, reversed otherwise, and read back as
   * a native integer. Whatever the host, the result is the stored value.
   */
  function NativeEndian(host: ByteOrder, stored: ByteOrder, field: seq<uint8>): (v: nat)
    ensures v == Value(stored, field)
  {
    var sameOrder := LeNative(host) == (stored == LittleEndian);
    ReverseReverse(field);
    if sameOrder then Value(host, field) else Value(host, Reverse(field))
  }

  /** Extends a field by one zero byte at its most significant end. */
  function ZeroExtend(order: ByteOrder, field: seq<uint8>): (wide: seq<uint8>)
    ensures |wide| == |field| + 1
    ensures Value(order, wide) == Value(order, field)
  {
    match order
    case LittleEndian =>
      LeValueAppendZero(field);
      field + [0]
    case BigEndian =>
      assert ([0] + field)[1..] == field;
      LeValueAppendZero(Reverse(field));
      [0] + field
  }

  lemma {:induction false} LeValueAppendZero(s: seq<uint8>)
    ensures LeValue(s + [0]) == LeValue(s)
  {
    if s != [] {
      assert (s + [0])[1..] == s[1..] + [0];
      LeValueAppendZero(s[1..]);
    }
  }

  /** `_native_endian_uint16`: the 16-bit field stored at `ptr[at..at + 2]`. */
  function NativeEndianUint16(host: ByteOrder, ptr: seq<uint8>, at: nat): (v: uint16)
    requires at + 2 <= |ptr|
    ensures v == Value(RomByteOrder, ptr[at..at + 2])
  {
    NativeEndian(host, RomByteOrder, ptr[at..at + 2])
  }

  /**
   * `_native_endian_3bytes_uint32`: the 24-bit field stored at `ptr[at..at + 3]`,
   * zero-extended to 32 bits.
   */
  function NativeEndian3BytesUint32(host: ByteOrder, ptr: seq<uint8>, at: nat): (v: uint32)
    requires at + 3 <= |ptr|
    ensures v == Value(RomByteOrder, ptr[at..at + 3])
    ensures v < 0x100_0000
  {
    assert Pow256(3) == 0x100_0000;
    NativeEndian(host, RomByteOrder, ZeroExtend(RomByteOrder, ptr[at..at + 3]))
  }

  /** `_native_endian_4bytes_uint32`: the 32-bit field stored at `ptr[at..at + 4]`. */
  function NativeEndian4BytesUint32(host: ByteOrder, ptr: seq<uint8>, at: nat): (v: uint32)
    requires at + 4 <= |ptr|
    ensures v == Value(RomByteOrder, ptr[at..at + 4])
  {
    assert Pow256(4) == 0x1_0000_0000;
    NativeEndian(host, RomByteOrder, ptr[at..at + 4])
  }

  /** Hosts of either byte order read every 2-byte field identically. */
  lemma HostIndependent16(ptr: seq<uint8>, at: nat)
    requires at + 2 <= |ptr|
    ensures NativeEndianUint16(LittleEndian, ptr, at) == NativeEndianUint16(BigEndian, ptr, at)
  {
  }

  /** Hosts of either byte order read every 3-byte field identically. */
  lemma HostIndependent24(ptr: seq<uint8>, at: nat)
    requires at + 3 <= |ptr|
    ensures NativeEndian3BytesUint32(LittleEndian, ptr, at) == NativeEndian3BytesUint32(BigEndian, ptr, at)
  {
  }

  /** Hosts of either byte order read every 4-byte field identically. */
  lemma HostIndependent32(ptr: seq<uint8>, at: nat)
    requires at + 4 <= |ptr|
    ensures NativeEndian4BytesUint32(LittleEndian, ptr, at) == NativeEndian4BytesUint32(BigEndian, ptr, at)
  {
  }

  /** A 16-bit value stored in ROM order decodes to itself on any host, and back. */
  lemma Uint16RoundTrip(host: ByteOrder, v: uint16, ptr: seq<uint8>)
    requires |ptr| == 2
    ensures NativeEndianUint16(host, Bytes(RomByteOrder, 2, v), 0) == v
    ensures Bytes(RomByteOrder, 2, NativeEndianUint16(host, ptr, 0)) == ptr
  {
    var field := Bytes(RomByteOrder, 2, v);
    assert field[0..2] == field;
    ValueOfBytes(RomByteOrder, 2, v);
    assert ptr[0..2] == ptr;
    BytesOfValue(RomByteOrder, ptr);
  }

  /** A 24-bit value stored in ROM order decodes to itself on any host, and back. */
  lemma Uint24RoundTrip(host: ByteOrder, v: nat, ptr: seq<uint8>)
    requires v < 0x100_0000 && |ptr| == 3
    ensures NativeEndian3BytesUint32(host, Bytes(RomByteOrder, 3, v), 0) == v
    ensures Bytes(RomByteOrder, 3, NativeEndian3BytesUint32(host, ptr, 0)) == ptr
  {
    var field := Bytes(RomByteOrder, 3, v);
    assert field[0..3] == field;
    ValueOfBytes(RomByteOrder, 3, v);
    assert ptr[0..3] == ptr;
    BytesOfValue(RomByteOrder, ptr);
  }

  /** A 32-bit value stored in ROM order decodes to itself on any host, and back. */
  lemma Uint32RoundTrip(host: ByteOrder, v: uint32, ptr: seq<uint8>)
    requires |ptr| == 4
    ensures NativeEndian4BytesUint32(host, Bytes(RomByteOrder, 4, v), 0) == v
    ensures Bytes(RomByteOrder, 4, NativeEndian4BytesUint32(host, ptr, 0)) == ptr
  {
    var field := Bytes(RomByteOrder, 4, v);
    assert field[0..4] == field;
    ValueOfBytes(RomByteOrder, 4, v);
    assert ptr[0..4] == ptr;
    BytesOfValue(RomByteOrder, ptr);
  }
}
