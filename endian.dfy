/**
 * src/endian.c: reading and writing 16-, 32- and 64-bit unsigned values as little- or
 * big-endian byte sequences.  A read takes the bytes starting at the pointer (a sequence
 * at least as long as the value); a write stores into a byte buffer in place.
 *
 * A read ORs each byte, widened to the value's type, shifted into place; a write stores
 * (value >> shift) & 0xff narrowed to a byte.  The byte layouts LittleBytes and BigBytes
 * are what the writes store.  The lemmas show that reads and writes are inverse to each
 * other in both directions and that big-endian order is little-endian order reversed.
 */
module Endian {
  /** The value whose bytes, least significant first, are b0, ..., b1. */
  function Little16(b0: bv8, b1: bv8): bv16
  {
    (b0 as bv16) | ((b1 as bv16) << 8)
  }

  /** The value whose bytes, most significant first, are b0, ..., b1. */
  function Big16(b0: bv8, b1: bv8): bv16
  {
    ((b0 as bv16) << 8) | (b1 as bv16)
  }

  /** The value whose bytes, least significant first, are b0, ..., b3. */
  function Little32(b0: bv8, b1: bv8, b2: bv8, b3: bv8): bv32
  {
    (b0 as bv32) | ((b1 as bv32) << 8) | ((b2 as bv32) << 16) | ((b3 as bv32) << 24)
  }

  /** The value whose bytes, most significant first, are b0, ..., b3. */
  function Big32(b0: bv8, b1: bv8, b2: bv8, b3: bv8): bv32
  {
    ((b0 as bv32) << 24) | ((b1 as bv32) << 16) | ((b2 as bv32) << 8) | (b3 as bv32)
  }

  /** The value whose bytes, least significant first, are b0, ..., b7. */
  function Little64(b0: bv8, b1: bv8, b2: bv8, b3: bv8, b4: bv8, b5: bv8, b6: bv8, b7: bv8): bv64
  {
    (b0 as bv64) | ((b1 as bv64) << 8) | ((b2 as bv64) << 16) | ((b3 as bv64) << 24) |
    ((b4 as bv64) << 32) | ((b5 as bv64) << 40) | ((b6 as bv64) << 48) | ((b7 as bv64) << 56)
  }

  /** The value whose bytes, most significant first, are b0, ..., b7. */
  function Big64(b0: bv8, b1: bv8, b2: bv8, b3: bv8, b4: bv8, b5: bv8, b6: bv8, b7: bv8): bv64
  {
    ((b0 as bv64) << 56) | ((b1 as bv64) << 48) | ((b2 as bv64) << 40) | ((b3 as bv64) << 32) |
    ((b4 as bv64) << 24) | ((b5 as bv64) << 16) | ((b6 as bv64) << 8) | (b7 as bv64)
  }

  /** silk_endian_read_little16: byte i at the pointer is bits 8i .. 8i + 7 of the value. */
  function ReadLittle16(p: seq<bv8>): bv16
    requires |p| >= 2
  {
    Little16(p[0], p[1])
  }

  /** silk_endian_read_big16: byte 0 at the pointer is the most significant. */
  function ReadBig16(p: seq<bv8>): bv16
    requires |p| >= 2
  {
    Big16(p[0], p[1])
  }

  /** silk_endian_read_little32: byte i at the pointer is bits 8i .. 8i + 7 of the value. */
  function ReadLittle32(p: seq<bv8>): bv32
    requires |p| >= 4
  {
    Little32(p[0], p[1], p[2], p[3])
  }

  /** silk_endian_read_big32: byte 0 at the pointer is the most significant. */
  function ReadBig32(p: seq<bv8>): bv32
    requires |p| >= 4
  {
    Big32(p[0], p[1], p[2], p[3])
  }

  /** silk_endian_read_little64: byte i at the pointer is bits 8i .. 8i + 7 of the value. */
  function ReadLittle64(p: seq<bv8>): bv64
    requires |p| >= 8
  {
    Little64(p[0], p[1], p[2], p[3], p[4], p[5], p[6], p[7])
  }

  /** silk_endian_read_big64: byte 0 at the pointer is the most significant. */
  function ReadBig64(p: seq<bv8>): bv64
    requires |p| >= 8
  {
    Big64(p[0], p[1], p[2], p[3], p[4], p[5], p[6], p[7])
  }

  /** The bytes of a 16-bit value, least significant first: byte i is (v >> 8i) & 0xff. */
  function LittleBytes16(v: bv16): (p: seq<bv8>)
    ensures |p| == 2
  {
    [(v & 0xff) as bv8, ((v >> 8) & 0xff) as bv8]
  }

  /** The bytes of a 16-bit value, most significant first. */
  function BigBytes16(v: bv16): (p: seq<bv8>)
    ensures |p| == 2
  {
    [((v >> 8) & 0xff) as bv8, (v & 0xff) as bv8]
  }

  /** The bytes of a 32-bit value, least significant first: byte i is (v >> 8i) & 0xff. */
  function LittleBytes32(v: bv32): (p: seq<bv8>)
    ensures |p| == 4
  {
    [(v & 0xff) as bv8, ((v >> 8) & 0xff) as bv8, ((v >> 16) & 0xff) as bv8, ((v >> 24) & 0xff) as bv8]
  }

  /** The bytes of a 32-bit value, most significant first. */
  function BigBytes32(v: bv32): (p: seq<bv8>)
    ensures |p| == 4
  {
    [((v >> 24) & 0xff) as bv8, ((v >> 16) & 0xff) as bv8, ((v >> 8) & 0xff) as bv8, (v & 0xff) as bv8]
  }

  /** The bytes of a 64-bit value, least significant first: byte i is (v >> 8i) & 0xff. */
  function LittleBytes64(v: bv64): (p: seq<bv8>)
    ensures |p| == 8
  {
    [(v & 0xff) as bv8, ((v >> 8) & 0xff) as bv8, ((v >> 16) & 0xff) as bv8, ((v >> 24) & 0xff) as bv8,
     ((v >> 32) & 0xff) as bv8, ((v >> 40) & 0xff) as bv8, ((v >> 48) & 0xff) as bv8, ((v >> 56) & 0xff) as bv8]
  }

  /** The bytes of a 64-bit value, most significant first. */
  function BigBytes64(v: bv64): (p: seq<bv8>)
    ensures |p| == 8
  {
    [((v >> 56) & 0xff) as bv8, ((v >> 48) & 0xff) as bv8, ((v >> 40) & 0xff) as bv8, ((v >> 32) & 0xff) as bv8,
     ((v >> 24) & 0xff) as bv8, ((v >> 16) & 0xff) as bv8, ((v >> 8) & 0xff) as bv8, (v & 0xff) as bv8]
  }

  /** silk_endian_write_little16: stores the 2 bytes of the value at data[off..off + 2] and touches nothing else. */
  method WriteLittle16(data: array<bv8>, off: nat, value: bv16)
    requires off + 2 <= data.Length
    modifies data
    ensures data[off..off + 2] == LittleBytes16(value)
    ensures data[..off] == old(data[..off]) && data[off + 2..] == old(data[off + 2..])
  {
    forall i | off <= i < off + 2 {
      data[i] := LittleBytes16(value)[i - off];
    }
  }

  /** silk_endian_write_little32: stores the 4 bytes of the value at data[off..off + 4] and touches nothing else. */
  method WriteLittle32(data: array<bv8>, off: nat, value: bv32)
    requires off + 4 <= data.Length
    modifies data
    ensures data[off..off + 4] == LittleBytes32(value)
    ensures data[..off] == old(data[..off]) && data[off + 4..] == old(data[off + 4..])
  {
    forall i | off <= i < off + 4 {
      data[i] := LittleBytes32(value)[i - off];
    }
  }

  /** silk_endian_write_little64: stores the 8 bytes of the value at data[off..off + 8] and touches nothing else. */
  method WriteLittle64(data: array<bv8>, off: nat, value: bv64)
    requires off + 8 <= data.Length
    modifies data
    ensures data[off..off + 8] == LittleBytes64(value)
    ensures data[..off] == old(data[..off]) && data[off + 8..] == old(data[off + 8..])
  {
    forall i | off <= i < off + 8 {
      data[i] := LittleBytes64(value)[i - off];
    }
  }

  /** silk_endian_write_big16: stores the 2 bytes of the value at data[off..off + 2] and touches nothing else. */
  method WriteBig16(data: array<bv8>, off: nat, value: bv16)
    requires off + 2 <= data.Length
    modifies data
    ensures data[off..off + 2] == BigBytes16(value)
    ensures data[..off] == old(data[..off]) && data[off + 2..] == old(data[off + 2..])
  {
    forall i | off <= i < off + 2 {
      data[i] := BigBytes16(value)[i - off];
    }
  }

  /** silk_endian_write_big32: stores the 4 bytes of the value at data[off..off + 4] and touches nothing else. */
  method WriteBig32(data: array<bv8>, off: nat, value: bv32)
    requires off + 4 <= data.Length
    modifies data
    ensures data[off..off + 4] == BigBytes32(value)
    ensures data[..off] == old(data[..off]) && data[off + 4..] == old(data[off + 4..])
  {
    forall i | off <= i < off + 4 {
      data[i] := BigBytes32(value)[i - off];
    }
  }

  /** silk_endian_write_big64: stores the 8 bytes of the value at data[off..off + 8] and touches nothing else. */
  method WriteBig64(data: array<bv8>, off: nat, value: bv64)
    requires off + 8 <= data.Length
    modifies data
    ensures data[off..off + 8] == BigBytes64(value)
    ensures data[..off] == old(data[..off]) && data[off + 8..] == old(data[off + 8..])
  {
    forall i | off <= i < off + 8 {
      data[i] := BigBytes64(value)[i - off];
    }
  }

  function Reverse<T>(s: seq<T>): (r: seq<T>)
    ensures |r| == |s|
  {
    if |s| == 0 then [] else Reverse(s[1..]) + [s[0]]
  }

  /** Reverse puts element i at position |s| - 1 - i. */
  lemma {:induction false} ReverseAt<T>(s: seq<T>)
    ensures forall i :: 0 <= i < |s| ==> Reverse(s)[i] == s[|s| - 1 - i]
  {
    if |s| > 0 {
      ReverseAt(s[1..]);
    }
  }

  /** Assembling the bytes of a 16-bit value gives the value. */
  lemma Join16(v: bv16)
    ensures Little16((v & 0xff) as bv8, ((v >> 8) & 0xff) as bv8) == v
    ensures Big16(((v >> 8) & 0xff) as bv8, (v & 0xff) as bv8) == v
  {
  }

  /** The bytes of an assembled 16-bit value are the bytes it was assembled from. */
  lemma SplitLittle16(b0: bv8, b1: bv8)
    ensures var v := Little16(b0, b1);
      (v & 0xff) as bv8 == b0 && ((v >> 8) & 0xff) as bv8 == b1
  {
  }

  lemma SplitBig16(b0: bv8, b1: bv8)
    ensures var v := Big16(b0, b1);
      ((v >> 8) & 0xff) as bv8 == b0 && (v & 0xff) as bv8 == b1
  {
  }

  /** Most significant byte first is least significant byte first with the bytes reversed. */
  lemma BigIsLittleReversed16(b0: bv8, b1: bv8)
    ensures Big16(b0, b1) == Little16(b1, b0)
  {
  }

  /** Assembling the bytes of a 32-bit value gives the value. */
  lemma Join32(v: bv32)
    ensures Little32((v & 0xff) as bv8, ((v >> 8) & 0xff) as bv8, ((v >> 16) & 0xff) as bv8, ((v >> 24) & 0xff) as bv8) == v
    ensures Big32(((v >> 24) & 0xff) as bv8, ((v >> 16) & 0xff) as bv8, ((v >> 8) & 0xff) as bv8, (v & 0xff) as bv8) == v
  {
  }

  /** The bytes of an assembled 32-bit value are the bytes it was assembled from. */
  lemma SplitLittle32(b0: bv8, b1: bv8, b2: bv8, b3: bv8)
    ensures var v := Little32(b0, b1, b2, b3);
      (v & 0xff) as bv8 == b0 && ((v >> 8) & 0xff) as bv8 == b1 &&
      ((v >> 16) & 0xff) as bv8 == b2 && ((v >> 24) & 0xff) as bv8 == b3
  {
  }

  lemma SplitBig32(b0: bv8, b1: bv8, b2: bv8, b3: bv8)
    ensures var v := Big32(b0, b1, b2, b3);
      ((v >> 24) & 0xff) as bv8 == b0 && ((v >> 16) & 0xff) as bv8 == b1 &&
      ((v >> 8) & 0xff) as bv8 == b2 && (v & 0xff) as bv8 == b3
  {
  }

  /** Most significant byte first is least significant byte first with the bytes reversed. */
  lemma BigIsLittleReversed32(b0: bv8, b1: bv8, b2: bv8, b3: bv8)
    ensures Big32(b0, b1, b2, b3) == Little32(b3, b2, b1, b0)
  {
  }

  /** Assembling the bytes of a 64-bit value gives the value. */
  lemma Join64(v: bv64)
    ensures Little64((v & 0xff) as bv8, ((v >> 8) & 0xff) as bv8, ((v >> 16) & 0xff) as bv8, ((v >> 24) & 0xff) as bv8,
      ((v >> 32) & 0xff) as bv8, ((v >> 40) & 0xff) as bv8, ((v >> 48) & 0xff) as bv8, ((v >> 56) & 0xff) as bv8) == v
    ensures Big64(((v >> 56) & 0xff) as bv8, ((v >> 48) & 0xff) as bv8, ((v >> 40) & 0xff) as bv8, ((v >> 32) & 0xff) as bv8,
      ((v >> 24) & 0xff) as bv8, ((v >> 16) & 0xff) as bv8, ((v >> 8) & 0xff) as bv8, (v & 0xff) as bv8) == v
  {
  }

  /** The bytes of an assembled 64-bit value are the bytes it was assembled from. */
  lemma SplitLittle64(b0: bv8, b1: bv8, b2: bv8, b3: bv8, b4: bv8, b5: bv8, b6: bv8, b7: bv8)
    ensures var v := Little64(b0, b1, b2, b3, b4, b5, b6, b7);
      (v & 0xff) as bv8 == b0 && ((v >> 8) & 0xff) as bv8 == b1 &&
      ((v >> 16) & 0xff) as bv8 == b2 && ((v >> 24) & 0xff) as bv8 == b3 &&
      ((v >> 32) & 0xff) as bv8 == b4 && ((v >> 40) & 0xff) as bv8 == b5 &&
      ((v >> 48) & 0xff) as bv8 == b6 && ((v >> 56) & 0xff) as bv8 == b7
  {
  }

  lemma SplitBig64(b0: bv8, b1: bv8, b2: bv8, b3: bv8, b4: bv8, b5: bv8, b6: bv8, b7: bv8)
    ensures var v := Big64(b0, b1, b2, b3, b4, b5, b6, b7);
      ((v >> 56) & 0xff) as bv8 == b0 && ((v >> 48) & 0xff) as bv8 == b1 &&
      ((v >> 40) & 0xff) as bv8 == b2 && ((v >> 32) & 0xff) as bv8 == b3 &&
      ((v >> 24) & 0xff) as bv8 == b4 && ((v >> 16) & 0xff) as bv8 == b5 &&
      ((v >> 8) & 0xff) as bv8 == b6 && (v & 0xff) as bv8 == b7
  {
  }

  /** Most significant byte first is least significant byte first with the bytes reversed. */
  lemma BigIsLittleReversed64(b0: bv8, b1: bv8, b2: bv8, b3: bv8, b4: bv8, b5: bv8, b6: bv8, b7: bv8)
    ensures Big64(b0, b1, b2, b3, b4, b5, b6, b7) == Little64(b7, b6, b5, b4, b3, b2, b1, b0)
  {
  }

  /** Reading back what silk_endian_write_little16 stored gives the value again, whatever follows it. */
  lemma LittleWriteRead16(v: bv16, rest: seq<bv8>)
    ensures ReadLittle16(LittleBytes16(v) + rest) == v
  {
    Join16(v);
  }

  /** Writing back what silk_endian_read_little16 returned reproduces the bytes that were read. */
  lemma LittleReadWrite16(p: seq<bv8>)
    requires |p| >= 2
    ensures LittleBytes16(ReadLittle16(p)) == p[..2]
  {
    SplitLittle16(p[0], p[1]);
  }

  /** Reading back what silk_endian_write_big16 stored gives the value again, whatever follows it. */
  lemma BigWriteRead16(v: bv16, rest: seq<bv8>)
    ensures ReadBig16(BigBytes16(v) + rest) == v
  {
    Join16(v);
  }

  /** Writing back what silk_endian_read_big16 returned reproduces the bytes that were read. */
  lemma BigReadWrite16(p: seq<bv8>)
    requires |p| >= 2
    ensures BigBytes16(ReadBig16(p)) == p[..2]
  {
    SplitBig16(p[0], p[1]);
  }

  /** Big-endian byte order is little-endian byte order reversed. */
  lemma BigIsReversedLittle16(v: bv16)
    ensures BigBytes16(v) == Reverse(LittleBytes16(v))
  {
    ReverseAt(LittleBytes16(v));
  }

  /** A big-endian read is a little-endian read of the reversed bytes. */
  lemma BigReadIsReversedLittleRead16(p: seq<bv8>)
    requires |p| >= 2
    ensures ReadBig16(p) == ReadLittle16(Reverse(p[..2]))
  {
    ReverseAt(p[..2]);
    BigIsLittleReversed16(p[0], p[1]);
  }

  /** A 16-bit value is determined by its bytes. */
  lemma LittleBytesInjective16(a: bv16, b: bv16)
    requires LittleBytes16(a) == LittleBytes16(b)
    ensures a == b
  {
    LittleWriteRead16(a, []);
    LittleWriteRead16(b, []);
  }

  /** Reading back what silk_endian_write_little32 stored gives the value again, whatever follows it. */
  lemma LittleWriteRead32(v: bv32, rest: seq<bv8>)
    ensures ReadLittle32(LittleBytes32(v) + rest) == v
  {
    Join32(v);
  }

  /** Writing back what silk_endian_read_little32 returned reproduces the bytes that were read. */
  lemma LittleReadWrite32(p: seq<bv8>)
    requires |p| >= 4
    ensures LittleBytes32(ReadLittle32(p)) == p[..4]
  {
    SplitLittle32(p[0], p[1], p[2], p[3]);
  }

  /** Reading back what silk_endian_write_big32 stored gives the value again, whatever follows it. */
  lemma BigWriteRead32(v: bv32, rest: seq<bv8>)
    ensures ReadBig32(BigBytes32(v) + rest) == v
  {
    Join32(v);
  }

  /** Writing back what silk_endian_read_big32 returned reproduces the bytes that were read. */
  lemma BigReadWrite32(p: seq<bv8>)
    requires |p| >= 4
    ensures BigBytes32(ReadBig32(p)) == p[..4]
  {
    SplitBig32(p[0], p[1], p[2], p[3]);
  }

  /** Big-endian byte order is little-endian byte order reversed. */
  lemma BigIsReversedLittle32(v: bv32)
    ensures BigBytes32(v) == Reverse(LittleBytes32(v))
  {
    ReverseAt(LittleBytes32(v));
  }

  /** A big-endian read is a little-endian read of the reversed bytes. */
  lemma BigReadIsReversedLittleRead32(p: seq<bv8>)
    requires |p| >= 4
    ensures ReadBig32(p) == ReadLittle32(Reverse(p[..4]))
  {
    ReverseAt(p[..4]);
    BigIsLittleReversed32(p[0], p[1], p[2], p[3]);
  }

  /** A 32-bit value is determined by its bytes. */
  lemma LittleBytesInjective32(a: bv32, b: bv32)
    requires LittleBytes32(a) == LittleBytes32(b)
    ensures a == b
  {
    LittleWriteRead32(a, []);
    LittleWriteRead32(b, []);
  }

  /** Reading back what silk_endian_write_little64 stored gives the value again, whatever follows it. */
  lemma LittleWriteRead64(v: bv64, rest: seq<bv8>)
    ensures ReadLittle64(LittleBytes64(v) + rest) == v
  {
    Join64(v);
  }

  /** Writing back what silk_endian_read_little64 returned reproduces the bytes that were read. */
  lemma LittleReadWrite64(p: seq<bv8>)
    requires |p| >= 8
    ensures LittleBytes64(ReadLittle64(p)) == p[..8]
  {
    SplitLittle64(p[0], p[1], p[2], p[3], p[4], p[5], p[6], p[7]);
  }

  /** Reading back what silk_endian_write_big64 stored gives the value again, whatever follows it. */
  lemma BigWriteRead64(v: bv64, rest: seq<bv8>)
    ensures ReadBig64(BigBytes64(v) + rest) == v
  {
    Join64(v);
  }

  /** Writing back what silk_endian_read_big64 returned reproduces the bytes that were read. */
  lemma BigReadWrite64(p: seq<bv8>)
    requires |p| >= 8
    ensures BigBytes64(ReadBig64(p)) == p[..8]
  {
    SplitBig64(p[0], p[1], p[2], p[3], p[4], p[5], p[6], p[7]);
  }

  /** Big-endian byte order is little-endian byte order reversed. */
  lemma BigIsReversedLittle64(v: bv64)
    ensures BigBytes64(v) == Reverse(LittleBytes64(v))
  {
    ReverseAt(LittleBytes64(v));
  }

  /** A big-endian read is a little-endian read of the reversed bytes. */
  lemma BigReadIsReversedLittleRead64(p: seq<bv8>)
    requires |p| >= 8
    ensures ReadBig64(p) == ReadLittle64(Reverse(p[..8]))
  {
    ReverseAt(p[..8]);
    BigIsLittleReversed64(p[0], p[1], p[2], p[3], p[4], p[5], p[6], p[7]);
  }

  /** A 64-bit value is determined by its bytes. */
  lemma LittleBytesInjective64(a: bv64, b: bv64)
    requires LittleBytes64(a) == LittleBytes64(b)
    ensures a == b
  {
    LittleWriteRead64(a, []);
    LittleWriteRead64(b, []);
  }

  /** Values read from the byte table 0x00, 0x11, ..., 0xff at several offsets. */
  lemma ReadVectors(d: seq<bv8>)
    requires d == [0x00, 0x11, 0x22, 0x33, 0x44, 0x55, 0x66, 0x77, 0x88, 0x99, 0xaa, 0xbb, 0xcc, 0xdd, 0xee, 0xff]
    ensures ReadLittle16(d) == 0x1100 && ReadLittle16(d[14..]) == 0xffee
    ensures ReadLittle32(d) == 0x33221100 && ReadLittle32(d[12..]) == 0xffeeddcc
    ensures ReadLittle64(d) == 0x7766554433221100 && ReadLittle64(d[8..]) == 0xffeeddccbbaa9988
    ensures ReadBig16(d) == 0x0011 && ReadBig32(d[1..]) == 0x11223344
    ensures ReadBig64(d[8..]) == 0x8899aabbccddeeff
  {
  }
}
