/**
 * src/silk/hash.c: MurmurHash3 x86_32.  Murmur3 is the reference definition, a fold of
 * the block mixing step over the 4-byte blocks followed by the tail and the finalizer;
 * Murmur3_32 is the loop of the C function, proved to compute it.  The loop calls the
 * named mixing steps (each of which spells out the corresponding C statements) rather
 * than repeating their arithmetic inline.
 */
module Hash {
  import opened Wrappers
  import opened Utils
  import Endian

  const C1: bv32 := 0xcc9e2d51
  const C2: bv32 := 0x1b873593
  const R1: bv32 := 15
  const R2: bv32 := 13
  const M: bv32 := 5
  const N: bv32 := 0xe6546b64

  /**
   * Block i of the input: the 32-bit load of chunks[i], which on the little-endian x86
   * target the algorithm is named for takes the bytes at 4i .. 4i + 3 low byte first.
   */
  function Block(data: seq<bv8>, i: nat): bv32
    requires 4 * i + 4 <= |data|
  {
    Endian.Little32(data[4 * i], data[4 * i + 1], data[4 * i + 2], data[4 * i + 3])
  }

  /** k * c1, rotated left by r1, times c2. */
  function Scramble(k: bv32): bv32
  {
    Rol32(k * C1, R1) * C2
  }

  /** The state update after a block: xor, rotate left by r2, times m plus n. */
  function MixState(h: bv32, k: bv32): bv32
  {
    Rol32(h ^ k, R2) * M + N
  }

  /** The state after the first n blocks. */
  function Body(data: seq<bv8>, seed: bv32, n: nat): bv32
    requires 4 * n <= |data|
  {
    if n == 0 then seed else MixState(Body(data, seed, n - 1), Scramble(Block(data, n - 1)))
  }

  /** The 0 to 3 bytes after the last whole block, assembled low byte first. */
  function TailWord(data: seq<bv8>): bv32
  {
    var i := |data| / 4 * 4;
    var rest := |data| - i;
    (if rest >= 3 then (data[i + 2] as bv32) << 16 else 0) |
    (if rest >= 2 then (data[i + 1] as bv32) << 8 else 0) |
    (if rest >= 1 then data[i] as bv32 else 0)
  }

  /** The tail step: the state is untouched when no bytes remain. */
  function Tail(data: seq<bv8>, h: bv32): bv32
  {
    TailMix(h, TailWord(data), |data| % 4)
  }

  /** The tail branch of the C function computes Tail when bytes remain. */
  lemma TailStep(p: seq<bv8>, h: bv32, word: bv32)
    requires |p| % 4 != 0 && word == TailWord(p)
    ensures h ^ Scramble(word) == Tail(p, h)
  {
    assert h ^ Scramble(word) == TailMix(h, word, |p| % 4);
  }

  /** Mixing in a tail word of rest bytes: k1 is scrambled and xor-ed in when rest > 0. */
  function TailMix(h: bv32, word: bv32, rest: nat): bv32
  {
    if rest == 0 then h else h ^ Scramble(word)
  }

  /**
   * The length folded into the state: a size_t xor-ed into a uint32_t keeps its low 32
   * bits.  Built from the binary digits of len, most significant first; shifting left
   * drops the digits above bit 31.
   */
  function LengthWord(len: nat): bv32
    decreases len
  {
    if len == 0 then 0 else (LengthWord(len / 2) << 1) | (if len % 2 == 1 then 1 else 0)
  }

  /** The finalizer (fmix32). */
  function Fmix32(h: bv32): bv32
  {
    var h1 := h ^ (h >> 16);
    var h2 := h1 * 0x85ebca6b;
    var h3 := h2 ^ (h2 >> 13);
    var h4 := h3 * 0xc2b2ae35;
    h4 ^ (h4 >> 16)
  }

  /** The last step: fold in the length, then finalize. */
  function Finish(h: bv32, len: nat): bv32
  {
    Fmix32(h ^ LengthWord(len))
  }

  /** MurmurHash3 x86_32 of the bytes with the given seed. */
  function Murmur3(data: seq<bv8>, seed: bv32): bv32
  {
    Finish(Tail(data, Body(data, seed, |data| / 4)), |data|)
  }

  /**
   * silk_hash_murmur3_32: a NULL data pointer yields the seed; otherwise the hash of the
   * len bytes at data.
   */
  method Murmur3_32(data: Option<seq<bv8>>, len: nat, seed: bv32) returns (hash: bv32)
    requires data.Some? ==> len <= |data.value|
    ensures data.None? ==> hash == seed
    ensures data.Some? ==> hash == Murmur3(data.value[..len], seed)
  {
    if data.None? {
      return seed;
    }
    var p := data.value[..len];
    hash := seed;
    var i := 0;
    while (i + 1) * 4 - 1 < len
      invariant 4 * i <= len
      invariant hash == Body(p, seed, i)
      decreases len - 4 * i
    {
      var k := Scramble(Block(p, i));
      hash := MixState(hash, k);
      i := i + 1;
    }

    assert i == |p| / 4;
    ghost var body := hash;
    var remainingBytes: bv32 := 0;
    var remainingSize := len - i * 4;
    if remainingSize >= 3 {
      remainingBytes := remainingBytes | ((p[i * 4 + 2] as bv32) << 16);
    }
    if remainingSize >= 2 {
      remainingBytes := remainingBytes | ((p[i * 4 + 1] as bv32) << 8);
    }
    if remainingSize >= 1 {
      remainingBytes := remainingBytes | (p[i * 4] as bv32);
      TailStep(p, hash, remainingBytes);
      hash := hash ^ Scramble(remainingBytes);
    }
    assert hash == Tail(p, body);
    hash := Finish(hash, |p|);
  }

  /** Block i is the little-endian 32-bit word at byte offset 4i. */
  lemma BlockIsLittleEndianRead(data: seq<bv8>, i: nat)
    requires 4 * i + 4 <= |data|
    ensures Block(data, i) == Endian.ReadLittle32(data[4 * i..])
  {
  }

  /** The state after n blocks depends only on the first 4n bytes. */
  lemma {:induction false} BodyPrefix(data: seq<bv8>, extra: seq<bv8>, seed: bv32, n: nat)
    requires 4 * n <= |data|
    ensures Body(data + extra, seed, n) == Body(data, seed, n)
  {
    if n > 0 {
      BodyPrefix(data, extra, seed, n - 1);
      assert Block(data + extra, n - 1) == Block(data, n - 1);
    }
  }

  /** One more block: the recursive step of Body, for known block value and states. */
  lemma BodyStep(data: seq<bv8>, seed: bv32, n: nat, prev: bv32, k: bv32, next: bv32)
    requires 1 <= n && 4 * n <= |data|
    requires Body(data, seed, n - 1) == prev && Block(data, n - 1) == k && next == MixState(prev, Scramble(k))
    ensures Body(data, seed, n) == next
  {
  }

  /** The hash from the state after the blocks, for known tail word and states. */
  lemma HashFromBody(data: seq<bv8>, seed: bv32, h: bv32, t: bv32, r: bv32)
    requires Body(data, seed, |data| / 4) == h
    requires t == Tail(data, h)
    requires r == Finish(t, |data|)
    ensures Murmur3(data, seed) == r
  {
    assert Murmur3(data, seed) == Finish(Tail(data, h), |data|);
  }

  /** "helloworld" (10 bytes, two blocks and a 2-byte tail) with seed 0. */
  lemma HelloWorldSeed0(p: seq<bv8>)
    requires |p| == 10
    requires p[0] == 0x68 && p[1] == 0x65 && p[2] == 0x6c && p[3] == 0x6c && p[4] == 0x6f
    requires p[5] == 0x77 && p[6] == 0x6f && p[7] == 0x72 && p[8] == 0x6c && p[9] == 0x64
    ensures Murmur3(p, 0) == 2687965642
  {
    BodyStep(p, 0, 1, 0, 0x6c6c6568, 4011061197);
    BodyStep(p, 0, 2, 4011061197, 0x726f776f, 2017190414);
    assert LengthWord(10) == 10;
    assert TailWord(p) == 0x646c;
    HashFromBody(p, 0, 2017190414, 3836178075, 2687965642);
  }

  /** "helloworld" (10 bytes, two blocks and a 2-byte tail) with seed 1. */
  lemma HelloWorldSeed1(p: seq<bv8>)
    requires |p| == 10
    requires p[0] == 0x68 && p[1] == 0x65 && p[2] == 0x6c && p[3] == 0x6c && p[4] == 0x6f
    requires p[5] == 0x77 && p[6] == 0x6f && p[7] == 0x72 && p[8] == 0x6c && p[9] == 0x64
    ensures Murmur3(p, 1) == 2081296690
  {
    BodyStep(p, 1, 1, 1, 0x6c6c6568, 4011020237);
    BodyStep(p, 1, 2, 4011020237, 0x726f776f, 1010557454);
    assert LengthWord(10) == 10;
    assert TailWord(p) == 0x646c;
    HashFromBody(p, 1, 1010557454, 2695327387, 2081296690);
  }

  /** "helloworld" (10 bytes, two blocks and a 2-byte tail) with seed 4294967295. */
  lemma HelloWorldSeedMax(p: seq<bv8>)
    requires |p| == 10
    requires p[0] == 0x68 && p[1] == 0x65 && p[2] == 0x6c && p[3] == 0x6c && p[4] == 0x6f
    requires p[5] == 0x77 && p[6] == 0x6f && p[7] == 0x72 && p[8] == 0x6c && p[9] == 0x64
    ensures Murmur3(p, 0xffff_ffff) == 1308330980
  {
    BodyStep(p, 0xffff_ffff, 1, 4294967295, 0x6c6c6568, 3717523190);
    BodyStep(p, 0xffff_ffff, 2, 3717523190, 0x726f776f, 1555228062);
    assert LengthWord(10) == 10;
    assert TailWord(p) == 0x646c;
    HashFromBody(p, 0xffff_ffff, 1555228062, 3224267019, 1308330980);
  }

  /** The bytes 1, 2, ..., 32 (0 tail bytes) with seed 0. */
  lemma Count32Seed0(p: seq<bv8>)
    requires |p| == 32
    requires p[0] == 1 && p[1] == 2 && p[2] == 3 && p[3] == 4 && p[4] == 5 && p[5] == 6 && p[6] == 7 && p[7] == 8
    requires p[8] == 9 && p[9] == 10 && p[10] == 11 && p[11] == 12 && p[12] == 13 && p[13] == 14 && p[14] == 15 && p[15] == 16
    requires p[16] == 17 && p[17] == 18 && p[18] == 19 && p[19] == 20 && p[20] == 21 && p[21] == 22 && p[22] == 23 && p[23] == 24
    requires p[24] == 25 && p[25] == 26 && p[26] == 27 && p[27] == 28 && p[28] == 29 && p[29] == 30 && p[30] == 31 && p[31] == 32
    ensures Murmur3(p, 0) == 3939779180
  {
    BodyStep(p, 0, 1, 0, 0x4030201, 1320314663);
    BodyStep(p, 0, 2, 1320314663, 0x8070605, 3407127497);
    BodyStep(p, 0, 3, 3407127497, 0xc0b0a09, 265811485);
    BodyStep(p, 0, 4, 265811485, 0x100f0e0d, 2458066390);
    BodyStep(p, 0, 5, 2458066390, 0x14131211, 2941584948);
    BodyStep(p, 0, 6, 2941584948, 0x18171615, 3106008454);
    BodyStep(p, 0, 7, 3106008454, 0x1c1b1a19, 4169338106);
    BodyStep(p, 0, 8, 4169338106, 0x201f1e1d, 3519455270);
    assert LengthWord(32) == 32;
    assert TailWord(p) == 0x0;
    HashFromBody(p, 0, 3519455270, 3519455270, 3939779180);
  }

  /** The bytes 1, 2, ..., 32 (0 tail bytes) with seed 1. */
  lemma Count32Seed1(p: seq<bv8>)
    requires |p| == 32
    requires p[0] == 1 && p[1] == 2 && p[2] == 3 && p[3] == 4 && p[4] == 5 && p[5] == 6 && p[6] == 7 && p[7] == 8
    requires p[8] == 9 && p[9] == 10 && p[10] == 11 && p[11] == 12 && p[12] == 13 && p[13] == 14 && p[14] == 15 && p[15] == 16
    requires p[16] == 17 && p[17] == 18 && p[18] == 19 && p[19] == 20 && p[20] == 21 && p[21] == 22 && p[22] == 23 && p[23] == 24
    requires p[24] == 25 && p[25] == 26 && p[26] == 27 && p[27] == 28 && p[28] == 29 && p[29] == 30 && p[30] == 31 && p[31] == 32
    ensures Murmur3(p, 1) == 4224611204
  {
    BodyStep(p, 1, 1, 1, 0x4030201, 1320273703);
    BodyStep(p, 1, 2, 1320273703, 0x8070605, 1729405897);
    BodyStep(p, 1, 3, 1729405897, 0xc0b0a09, 265839005);
    BodyStep(p, 1, 4, 265839005, 0x100f0e0d, 4185071067);
    BodyStep(p, 1, 5, 4185071067, 0x14131211, 2941049098);
    BodyStep(p, 1, 6, 2941049098, 0x18171615, 3892194689);
    BodyStep(p, 1, 7, 3892194689, 0x1c1b1a19, 3497954621);
    BodyStep(p, 1, 8, 3497954621, 0x201f1e1d, 37447357);
    assert LengthWord(32) == 32;
    assert TailWord(p) == 0x0;
    HashFromBody(p, 1, 37447357, 37447357, 4224611204);
  }

  /** The bytes 1, 2, ..., 32 (0 tail bytes) with seed 4294967295. */
  lemma Count32SeedMax(p: seq<bv8>)
    requires |p| == 32
    requires p[0] == 1 && p[1] == 2 && p[2] == 3 && p[3] == 4 && p[4] == 5 && p[5] == 6 && p[6] == 7 && p[7] == 8
    requires p[8] == 9 && p[9] == 10 && p[10] == 11 && p[11] == 12 && p[12] == 13 && p[13] == 14 && p[14] == 15 && p[15] == 16
    requires p[16] == 17 && p[17] == 18 && p[18] == 19 && p[19] == 20 && p[20] == 21 && p[21] == 22 && p[22] == 23 && p[23] == 24
    requires p[24] == 25 && p[25] == 26 && p[26] == 27 && p[27] == 28 && p[28] == 29 && p[29] == 30 && p[30] == 31 && p[31] == 32
    ensures Murmur3(p, 0xffff_ffff) == 15435841
  {
    BodyStep(p, 0xffff_ffff, 1, 4294967295, 0x4030201, 2113302428);
    BodyStep(p, 0xffff_ffff, 2, 2113302428, 0x8070605, 1172191249);
    BodyStep(p, 0xffff_ffff, 3, 1172191249, 0xc0b0a09, 2925875024);
    BodyStep(p, 0xffff_ffff, 4, 2925875024, 0x100f0e0d, 817011408);
    BodyStep(p, 0xffff_ffff, 5, 817011408, 0x14131211, 2662566802);
    BodyStep(p, 0xffff_ffff, 6, 2662566802, 0x18171615, 2799641218);
    BodyStep(p, 0xffff_ffff, 7, 2799641218, 0x1c1b1a19, 698389961);
    BodyStep(p, 0xffff_ffff, 8, 698389961, 0x201f1e1d, 3007827674);
    assert LengthWord(32) == 32;
    assert TailWord(p) == 0x0;
    HashFromBody(p, 0xffff_ffff, 3007827674, 3007827674, 15435841);
  }

  /** The bytes 1, 2, ..., 31 (3 tail bytes) with seed 0. */
  lemma Count31Seed0(p: seq<bv8>)
    requires |p| == 31
    requires p[0] == 1 && p[1] == 2 && p[2] == 3 && p[3] == 4 && p[4] == 5 && p[5] == 6 && p[6] == 7 && p[7] == 8
    requires p[8] == 9 && p[9] == 10 && p[10] == 11 && p[11] == 12 && p[12] == 13 && p[13] == 14 && p[14] == 15 && p[15] == 16
    requires p[16] == 17 && p[17] == 18 && p[18] == 19 && p[19] == 20 && p[20] == 21 && p[21] == 22 && p[22] == 23 && p[23] == 24
    requires p[24] == 25 && p[25] == 26 && p[26] == 27 && p[27] == 28 && p[28] == 29 && p[29] == 30 && p[30] == 31
    ensures Murmur3(p, 0) == 2070738917
  {
    BodyStep(p, 0, 1, 0, 0x4030201, 1320314663);
    BodyStep(p, 0, 2, 1320314663, 0x8070605, 3407127497);
    BodyStep(p, 0, 3, 3407127497, 0xc0b0a09, 265811485);
    BodyStep(p, 0, 4, 265811485, 0x100f0e0d, 2458066390);
    BodyStep(p, 0, 5, 2458066390, 0x14131211, 2941584948);
    BodyStep(p, 0, 6, 2941584948, 0x18171615, 3106008454);
    BodyStep(p, 0, 7, 3106008454, 0x1c1b1a19, 4169338106);
    assert LengthWord(31) == 31;
    assert TailWord(p) == 0x1f1e1d;
    HashFromBody(p, 0, 4169338106, 913983670, 2070738917);
  }

  /** The bytes 1, 2, ..., 31 (3 tail bytes) with seed 1. */
  lemma Count31Seed1(p: seq<bv8>)
    requires |p| == 31
    requires p[0] == 1 && p[1] == 2 && p[2] == 3 && p[3] == 4 && p[4] == 5 && p[5] == 6 && p[6] == 7 && p[7] == 8
    requires p[8] == 9 && p[9] == 10 && p[10] == 11 && p[11] == 12 && p[12] == 13 && p[13] == 14 && p[14] == 15 && p[15] == 16
    requires p[16] == 17 && p[17] == 18 && p[18] == 19 && p[19] == 20 && p[20] == 21 && p[21] == 22 && p[22] == 23 && p[23] == 24
    requires p[24] == 25 && p[25] == 26 && p[26] == 27 && p[27] == 28 && p[28] == 29 && p[29] == 30 && p[30] == 31
    ensures Murmur3(p, 1) == 2758145370
  {
    BodyStep(p, 1, 1, 1, 0x4030201, 1320273703);
    BodyStep(p, 1, 2, 1320273703, 0x8070605, 1729405897);
    BodyStep(p, 1, 3, 1729405897, 0xc0b0a09, 265839005);
    BodyStep(p, 1, 4, 265839005, 0x100f0e0d, 4185071067);
    BodyStep(p, 1, 5, 4185071067, 0x14131211, 2941049098);
    BodyStep(p, 1, 6, 2941049098, 0x18171615, 3892194689);
    BodyStep(p, 1, 7, 3892194689, 0x1c1b1a19, 3497954621);
    assert LengthWord(31) == 31;
    assert TailWord(p) == 0x1f1e1d;
    HashFromBody(p, 1, 3497954621, 512215409, 2758145370);
  }

  /** The bytes 1, 2, ..., 31 (3 tail bytes) with seed 4294967295. */
  lemma Count31SeedMax(p: seq<bv8>)
    requires |p| == 31
    requires p[0] == 1 && p[1] == 2 && p[2] == 3 && p[3] == 4 && p[4] == 5 && p[5] == 6 && p[6] == 7 && p[7] == 8
    requires p[8] == 9 && p[9] == 10 && p[10] == 11 && p[11] == 12 && p[12] == 13 && p[13] == 14 && p[14] == 15 && p[15] == 16
    requires p[16] == 17 && p[17] == 18 && p[18] == 19 && p[19] == 20 && p[20] == 21 && p[21] == 22 && p[22] == 23 && p[23] == 24
    requires p[24] == 25 && p[25] == 26 && p[26] == 27 && p[27] == 28 && p[28] == 29 && p[29] == 30 && p[30] == 31
    ensures Murmur3(p, 0xffff_ffff) == 697923434
  {
    BodyStep(p, 0xffff_ffff, 1, 4294967295, 0x4030201, 2113302428);
    BodyStep(p, 0xffff_ffff, 2, 2113302428, 0x8070605, 1172191249);
    BodyStep(p, 0xffff_ffff, 3, 1172191249, 0xc0b0a09, 2925875024);
    BodyStep(p, 0xffff_ffff, 4, 2925875024, 0x100f0e0d, 817011408);
    BodyStep(p, 0xffff_ffff, 5, 817011408, 0x14131211, 2662566802);
    BodyStep(p, 0xffff_ffff, 6, 2662566802, 0x18171615, 2799641218);
    BodyStep(p, 0xffff_ffff, 7, 2799641218, 0x1c1b1a19, 698389961);
    assert LengthWord(31) == 31;
    assert TailWord(p) == 0x1f1e1d;
    HashFromBody(p, 0xffff_ffff, 698389961, 3881423237, 697923434);
  }

  /** The bytes 1, 2, ..., 30 (2 tail bytes) with seed 0. */
  lemma Count30Seed0(p: seq<bv8>)
    requires |p| == 30
    requires p[0] == 1 && p[1] == 2 && p[2] == 3 && p[3] == 4 && p[4] == 5 && p[5] == 6 && p[6] == 7 && p[7] == 8
    requires p[8] == 9 && p[9] == 10 && p[10] == 11 && p[11] == 12 && p[12] == 13 && p[13] == 14 && p[14] == 15 && p[15] == 16
    requires p[16] == 17 && p[17] == 18 && p[18] == 19 && p[19] == 20 && p[20] == 21 && p[21] == 22 && p[22] == 23 && p[23] == 24
    requires p[24] == 25 && p[25] == 26 && p[26] == 27 && p[27] == 28 && p[28] == 29 && p[29] == 30
    ensures Murmur3(p, 0) == 18287138
  {
    BodyStep(p, 0, 1, 0, 0x4030201, 1320314663);
    BodyStep(p, 0, 2, 1320314663, 0x8070605, 3407127497);
    BodyStep(p, 0, 3, 3407127497, 0xc0b0a09, 265811485);
    BodyStep(p, 0, 4, 265811485, 0x100f0e0d, 2458066390);
    BodyStep(p, 0, 5, 2458066390, 0x14131211, 2941584948);
    BodyStep(p, 0, 6, 2941584948, 0x18171615, 3106008454);
    BodyStep(p, 0, 7, 3106008454, 0x1c1b1a19, 4169338106);
    assert LengthWord(30) == 30;
    assert TailWord(p) == 0x1e1d;
    HashFromBody(p, 0, 4169338106, 4024537309, 18287138);
  }

  /** The bytes 1, 2, ..., 30 (2 tail bytes) with seed 1. */
  lemma Count30Seed1(p: seq<bv8>)
    requires |p| == 30
    requires p[0] == 1 && p[1] == 2 && p[2] == 3 && p[3] == 4 && p[4] == 5 && p[5] == 6 && p[6] == 7 && p[7] == 8
    requires p[8] == 9 && p[9] == 10 && p[10] == 11 && p[11] == 12 && p[12] == 13 && p[13] == 14 && p[14] == 15 && p[15] == 16
    requires p[16] == 17 && p[17] == 18 && p[18] == 19 && p[19] == 20 && p[20] == 21 && p[21] == 22 && p[22] == 23 && p[23] == 24
    requires p[24] == 25 && p[25] == 26 && p[26] == 27 && p[27] == 28 && p[28] == 29 && p[29] == 30
    ensures Murmur3(p, 1) == 3096548982
  {
    BodyStep(p, 1, 1, 1, 0x4030201, 1320273703);
    BodyStep(p, 1, 2, 1320273703, 0x8070605, 1729405897);
    BodyStep(p, 1, 3, 1729405897, 0xc0b0a09, 265839005);
    BodyStep(p, 1, 4, 265839005, 0x100f0e0d, 4185071067);
    BodyStep(p, 1, 5, 4185071067, 0x14131211, 2941049098);
    BodyStep(p, 1, 6, 2941049098, 0x18171615, 3892194689);
    BodyStep(p, 1, 7, 3892194689, 0x1c1b1a19, 3497954621);
    assert LengthWord(30) == 30;
    assert TailWord(p) == 0x1e1d;
    HashFromBody(p, 1, 3497954621, 3340505370, 3096548982);
  }

  /** The bytes 1, 2, ..., 30 (2 tail bytes) with seed 4294967295. */
  lemma Count30SeedMax(p: seq<bv8>)
    requires |p| == 30
    requires p[0] == 1 && p[1] == 2 && p[2] == 3 && p[3] == 4 && p[4] == 5 && p[5] == 6 && p[6] == 7 && p[7] == 8
    requires p[8] == 9 && p[9] == 10 && p[10] == 11 && p[11] == 12 && p[12] == 13 && p[13] == 14 && p[14] == 15 && p[15] == 16
    requires p[16] == 17 && p[17] == 18 && p[18] == 19 && p[19] == 20 && p[20] == 21 && p[21] == 22 && p[22] == 23 && p[23] == 24
    requires p[24] == 25 && p[25] == 26 && p[26] == 27 && p[27] == 28 && p[28] == 29 && p[29] == 30
    ensures Murmur3(p, 0xffff_ffff) == 4018556236
  {
    BodyStep(p, 0xffff_ffff, 1, 4294967295, 0x4030201, 2113302428);
    BodyStep(p, 0xffff_ffff, 2, 2113302428, 0x8070605, 1172191249);
    BodyStep(p, 0xffff_ffff, 3, 1172191249, 0xc0b0a09, 2925875024);
    BodyStep(p, 0xffff_ffff, 4, 2925875024, 0x100f0e0d, 817011408);
    BodyStep(p, 0xffff_ffff, 5, 817011408, 0x14131211, 2662566802);
    BodyStep(p, 0xffff_ffff, 6, 2662566802, 0x18171615, 2799641218);
    BodyStep(p, 0xffff_ffff, 7, 2799641218, 0x1c1b1a19, 698389961);
    assert LengthWord(30) == 30;
    assert TailWord(p) == 0x1e1d;
    HashFromBody(p, 0xffff_ffff, 698389961, 1052903918, 4018556236);
  }

  /** The bytes 1, 2, ..., 29 (1 tail bytes) with seed 0. */
  lemma Count29Seed0(p: seq<bv8>)
    requires |p| == 29
    requires p[0] == 1 && p[1] == 2 && p[2] == 3 && p[3] == 4 && p[4] == 5 && p[5] == 6 && p[6] == 7 && p[7] == 8
    requires p[8] == 9 && p[9] == 10 && p[10] == 11 && p[11] == 12 && p[12] == 13 && p[13] == 14 && p[14] == 15 && p[15] == 16
    requires p[16] == 17 && p[17] == 18 && p[18] == 19 && p[19] == 20 && p[20] == 21 && p[21] == 22 && p[22] == 23 && p[23] == 24
    requires p[24] == 25 && p[25] == 26 && p[26] == 27 && p[27] == 28 && p[28] == 29
    ensures Murmur3(p, 0) == 781610037
  {
    BodyStep(p, 0, 1, 0, 0x4030201, 1320314663);
    BodyStep(p, 0, 2, 1320314663, 0x8070605, 3407127497);
    BodyStep(p, 0, 3, 3407127497, 0xc0b0a09, 265811485);
    BodyStep(p, 0, 4, 265811485, 0x100f0e0d, 2458066390);
    BodyStep(p, 0, 5, 2458066390, 0x14131211, 2941584948);
    BodyStep(p, 0, 6, 2941584948, 0x18171615, 3106008454);
    BodyStep(p, 0, 7, 3106008454, 0x1c1b1a19, 4169338106);
    assert LengthWord(29) == 29;
    assert TailWord(p) == 0x1d;
    HashFromBody(p, 0, 4169338106, 2549050197, 781610037);
  }

  /** The bytes 1, 2, ..., 29 (1 tail bytes) with seed 1. */
  lemma Count29Seed1(p: seq<bv8>)
    requires |p| == 29
    requires p[0] == 1 && p[1] == 2 && p[2] == 3 && p[3] == 4 && p[4] == 5 && p[5] == 6 && p[6] == 7 && p[7] == 8
    requires p[8] == 9 && p[9] == 10 && p[10] == 11 && p[11] == 12 && p[12] == 13 && p[13] == 14 && p[14] == 15 && p[15] == 16
    requires p[16] == 17 && p[17] == 18 && p[18] == 19 && p[19] == 20 && p[20] == 21 && p[21] == 22 && p[22] == 23 && p[23] == 24
    requires p[24] == 25 && p[25] == 26 && p[26] == 27 && p[27] == 28 && p[28] == 29
    ensures Murmur3(p, 1) == 3051931994
  {
    BodyStep(p, 1, 1, 1, 0x4030201, 1320273703);
    BodyStep(p, 1, 2, 1320273703, 0x8070605, 1729405897);
    BodyStep(p, 1, 3, 1729405897, 0xc0b0a09, 265839005);
    BodyStep(p, 1, 4, 265839005, 0x100f0e0d, 4185071067);
    BodyStep(p, 1, 5, 4185071067, 0x14131211, 2941049098);
    BodyStep(p, 1, 6, 2941049098, 0x18171615, 3892194689);
    BodyStep(p, 1, 7, 3892194689, 0x1c1b1a19, 3497954621);
    assert LengthWord(29) == 29;
    assert TailWord(p) == 0x1d;
    HashFromBody(p, 1, 3497954621, 3205687954, 3051931994);
  }

  /** The bytes 1, 2, ..., 29 (1 tail bytes) with seed 4294967295. */
  lemma Count29SeedMax(p: seq<bv8>)
    requires |p| == 29
    requires p[0] == 1 && p[1] == 2 && p[2] == 3 && p[3] == 4 && p[4] == 5 && p[5] == 6 && p[6] == 7 && p[7] == 8
    requires p[8] == 9 && p[9] == 10 && p[10] == 11 && p[11] == 12 && p[12] == 13 && p[13] == 14 && p[14] == 15 && p[15] == 16
    requires p[16] == 17 && p[17] == 18 && p[18] == 19 && p[19] == 20 && p[20] == 21 && p[21] == 22 && p[22] == 23 && p[23] == 24
    requires p[24] == 25 && p[25] == 26 && p[26] == 27 && p[27] == 28 && p[28] == 29
    ensures Murmur3(p, 0xffff_ffff) == 3650431031
  {
    BodyStep(p, 0xffff_ffff, 1, 4294967295, 0x4030201, 2113302428);
    BodyStep(p, 0xffff_ffff, 2, 2113302428, 0x8070605, 1172191249);
    BodyStep(p, 0xffff_ffff, 3, 1172191249, 0xc0b0a09, 2925875024);
    BodyStep(p, 0xffff_ffff, 4, 2925875024, 0x100f0e0d, 817011408);
    BodyStep(p, 0xffff_ffff, 5, 817011408, 0x14131211, 2662566802);
    BodyStep(p, 0xffff_ffff, 6, 2662566802, 0x18171615, 2799641218);
    BodyStep(p, 0xffff_ffff, 7, 2799641218, 0x1c1b1a19, 698389961);
    assert LengthWord(29) == 29;
    assert TailWord(p) == 0x1d;
    HashFromBody(p, 0xffff_ffff, 698389961, 1187836518, 3650431031);
  }
}
