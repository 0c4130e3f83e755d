/**
 * CRC-32 as section 8 of RFC 1952 defines it: bits are reflected, the register starts
 * and ends inverted. The register is advanced one bit at a time here; everything the
 * engine computes faster is proved against this definition.
 */
module Crc {
  import opened Keys

  const POLYNOMIAL: bv32 := 0xedb8_8320
  const ONES: bv32 := 0xffff_ffff

  function Step(c: bv32): bv32 {
    if c & 1 == 1 then Xor(Half(c), POLYNOMIAL) else Half(c)
  }

  function Half(c: bv32): bv32 {
    c >> 1
  }

  function Steps(c: bv32, n: nat): bv32
    decreases n
  {
    if n == 0 then c else Steps(Step(c), n - 1)
  }

  function Xor(a: bv32, b: bv32): bv32 {
    a ^ b
  }

  function Bits(b: Byte): bv32 {
    b as bv32
  }

  /** The register after hashing `bytes` from register `c`. */
  function Raw(c: bv32, bytes: Bytes): bv32
    decreases |bytes|
  {
    if bytes == [] then c else Raw(Steps(Xor(c, Bits(bytes[0])), 8), bytes[1..])
  }

  function Crc32(bytes: Bytes): bv32 {
    Xor(Raw(ONES, bytes), ONES)
  }

  /** The effect of `n` zero bytes on a difference of registers. */
  function Advance(c: bv32, n: nat): bv32 {
    Steps(c, 8 * n)
  }

  function Zeros(n: nat): (r: Bytes)
    ensures |r| == n
  {
    seq(n, _ => 0)
  }

  // ---------- linearity ----------

  lemma {:induction false} LowBit(a: bv32)
    ensures a & 1 == 0 || a & 1 == 1
  {
  }

  lemma {:induction false} XorAssociates(a: bv32, b: bv32, c: bv32)
    ensures Xor(Xor(a, b), c) == Xor(a, Xor(b, c))
  {
    assert Xor(a ^ b, c) == Xor(a, b ^ c) by {
      assert (a ^ b) ^ c == a ^ (b ^ c);
    }
  }

  lemma {:induction false} XorSwaps(a: bv32, b: bv32, c: bv32)
    ensures Xor(Xor(a, b), c) == Xor(Xor(a, c), b)
  {
    assert Xor(a ^ b, c) == Xor(a ^ c, b) by {
      assert (a ^ b) ^ c == (a ^ c) ^ b;
    }
  }

  lemma {:induction false} XorZero(a: bv32)
    ensures Xor(a, 0) == a && Xor(0, a) == a
  {
  }

  lemma {:induction false} XorTwice(a: bv32, b: bv32)
    ensures Xor(Xor(a, b), b) == a && Xor(b, Xor(b, a)) == a && Xor(a, a) == 0
  {
    assert Xor(a ^ b, b) == a;
    assert Xor(b, b ^ a) == a;
  }

  lemma {:induction false} XorCancels(a: bv32, b: bv32, c: bv32, ones: bv32)
    ensures Xor(Xor(a, b), Xor(Xor(b, c), ones)) == Xor(Xor(a, c), ones)
  {
    hide Xor;
    XorAssociates(a, b, Xor(Xor(b, c), ones));
    XorAssociates(b, c, ones);
    XorTwice(Xor(c, ones), b);
    XorAssociates(a, c, ones);
  }

  lemma {:induction false} XorCancelsPair(a: bv32, b: bv32, p: bv32)
    ensures Xor(Xor(a, p), Xor(b, p)) == Xor(a, b)
  {
    assert Xor(a ^ p, b ^ p) == Xor(a, b) by {
      assert (a ^ p) ^ (b ^ p) == a ^ b;
    }
  }

  lemma {:induction false} LowBitOfXor(a: bv32, b: bv32)
    ensures Xor(a, b) & 1 == 1 <==> (a & 1 != b & 1)
  {
  }

  lemma {:induction false} HalfOfXor(a: bv32, b: bv32)
    ensures Half(Xor(a, b)) == Xor(Half(a), Half(b))
  {
    assert Half(a ^ b) == Xor(a >> 1, b >> 1) by {
      HalfDistributes(a, b);
    }
  }

  lemma {:induction false} HalfDistributes(a: bv32, b: bv32)
    ensures (a ^ b) >> 1 == (a >> 1) ^ (b >> 1)
  {
  }

  lemma {:induction false} StepLinear(a: bv32, b: bv32)
    ensures Step(Xor(a, b)) == Xor(Step(a), Step(b))
  {
    LowBit(a);
    LowBit(b);
    LowBitOfXor(a, b);
    HalfOfXor(a, b);
    XorSwaps(Half(a), POLYNOMIAL, Half(b));
    XorAssociates(Half(a), Half(b), POLYNOMIAL);
    XorCancelsPair(Half(a), Half(b), POLYNOMIAL);
    hide Xor, Half;
  }

  lemma {:induction false} StepsLinear(a: bv32, b: bv32, n: nat)
    ensures Steps(Xor(a, b), n) == Xor(Steps(a, n), Steps(b, n))
    decreases n
  {
    if n > 0 {
      StepLinear(a, b);
      hide Xor, Step;
      StepsLinear(Step(a), Step(b), n - 1);
    }
  }

  lemma {:induction false} StepsAdd(c: bv32, m: nat, n: nat)
    ensures Steps(c, m + n) == Steps(Steps(c, m), n)
    decreases m
  {
    hide Step;
    if m > 0 {
      StepsAdd(Step(c), m - 1, n);
    }
  }

  lemma {:induction false} StepsOfZero(n: nat)
    ensures Steps(0, n) == 0
  {
    hide Steps;
    StepsLinear(0, 0, n);
  }

  lemma {:induction false} AdvanceAdd(c: bv32, m: nat, n: nat)
    ensures Advance(c, m + n) == Advance(Advance(c, m), n)
  {
    hide Steps;
    StepsAdd(c, 8 * m, 8 * n);
  }

  lemma {:induction false} AdvanceLinear(a: bv32, b: bv32, n: nat)
    ensures Advance(Xor(a, b), n) == Xor(Advance(a, n), Advance(b, n))
  {
    hide Steps, Xor;
    StepsLinear(a, b, 8 * n);
  }

  lemma {:induction false} AdvanceTrivial(c: bv32, n: nat)
    ensures Advance(c, 0) == c && Advance(0, n) == 0
  {
    hide Step;
    StepsOfZero(8 * n);
  }

  // ---------- hashing in pieces ----------

  lemma {:induction false} RawAppend(c: bv32, p: Bytes, q: Bytes)
    ensures Raw(c, p + q) == Raw(Raw(c, p), q)
    decreases |p|
  {
    hide Steps, Xor, Bits;
    if p == [] {
      assert p + q == q;
    } else {
      assert (p + q)[1..] == p[1..] + q;
      RawAppend(Steps(Xor(c, Bits(p[0])), 8), p[1..], q);
    }
  }

  /** The register splits into what came before and what the bytes alone contribute. */
  lemma {:induction false} RawSplits(c: bv32, d: bv32, bytes: Bytes)
    ensures Raw(Xor(c, d), bytes) == Xor(Advance(c, |bytes|), Raw(d, bytes))
    decreases |bytes|
  {
    hide Steps, Xor, Bits;
    if bytes == [] {
      AdvanceTrivial(c, 0);
    } else {
      var b := Bits(bytes[0]);
      var n := |bytes| - 1;
      StepsLinear(c, Xor(d, b), 8);
      XorAssociates(c, d, b);
      RawSplits(Steps(c, 8), Steps(Xor(d, b), 8), bytes[1..]);
      AdvanceAdd(c, 1, n);
      assert Advance(c, 1) == Steps(c, 8);
    }
  }

  lemma {:induction false} RawOfZeros(c: bv32, n: nat)
    ensures Raw(c, Zeros(n)) == Advance(c, n)
    decreases n
  {
    hide Steps, Xor;
    if n == 0 {
      AdvanceTrivial(c, 0);
    } else {
      assert Zeros(n)[0] == 0 && Zeros(n)[1..] == Zeros(n - 1);
      XorZero(c);
      RawOfZeros(Steps(c, 8), n - 1);
      AdvanceAdd(c, 1, n - 1);
    }
  }

  /** What the library's `combine` computes from the checksums of two pieces. */
  function Combine(first: bv32, second: bv32, secondLen: nat): bv32 {
    Xor(Advance(first, secondLen), second)
  }

  lemma {:induction false} CombineIsConcatenation(p: Bytes, q: Bytes)
    ensures Crc32(p + q) == Combine(Crc32(p), Crc32(q), |q|)
  {
    hide Steps, Raw, Advance, Xor;
    var r := Raw(ONES, p);
    RawAppend(ONES, p, q);
    RawSplits(r, 0, q);
    RawSplits(ONES, 0, q);
    AdvanceLinear(r, ONES, |q|);
    XorZero(r);
    XorZero(ONES);
    XorCancels(Advance(r, |q|), Advance(ONES, |q|), Raw(0, q), ONES);
  }

  lemma {:induction false} EmptyCrc()
    ensures Crc32([]) == 0
  {
  }

  /** Appending zeros acts on the inverted checksum. */
  lemma {:induction false} CrcOfPadded(bytes: Bytes, n: nat)
    ensures Crc32(bytes + Zeros(n)) == Xor(Advance(Xor(Crc32(bytes), ONES), n), ONES)
  {
    hide Steps, Raw, Advance, Xor;
    RawAppend(ONES, bytes, Zeros(n));
    RawOfZeros(Raw(ONES, bytes), n);
    XorTwice(Raw(ONES, bytes), ONES);
  }

  // ---------- a checksum stored little-endian inside the hashed bytes ----------

  function Low(c: bv32): (r: bv32)
    ensures r < 256
  {
    c & 0xff
  }

  function Rest(c: bv32): (r: bv32)
    ensures r < 0x100_0000
  {
    c >> 8
  }

  function AsByte(x: bv32): (r: Byte)
    requires x < 256
    ensures Bits(r) == x
  {
    x as int
  }

  /** The `k` low bytes of `c`, least significant first. */
  function LowBytes(c: bv32, k: nat): (r: Bytes)
    ensures |r| == k
    decreases k
  {
    if k == 0 then [] else [AsByte(Low(c))] + LowBytes(Rest(c), k - 1)
  }

  function LittleEndian(c: bv32): (r: Bytes)
    ensures |r| == 4
  {
    LowBytes(c, 4)
  }

  predicate Fits(c: bv32, k: nat)
    decreases k
  {
    if k == 0 then c == 0 else Fits(Rest(c), k - 1)
  }

  function Doubled(x: bv32): bv32 {
    x << 1
  }

  function Quadrupled(x: bv32): bv32 {
    (x << 1) << 1
  }

  /** A shift by one byte. */
  function Up(x: bv32): bv32 {
    (((((((x << 1) << 1) << 1) << 1) << 1) << 1) << 1) << 1
  }

  lemma {:induction false} HalfOfDoubled(x: bv32)
    requires x < 0x8000_0000
    ensures Doubled(x) & 1 != 1 && Half(Doubled(x)) == x
  {
    assert Half(x << 1) == x by {
      assert (x << 1) >> 1 == x;
    }
    assert (x << 1) & 1 == 0;
  }

  lemma {:induction false} StepUndoesDoubling(x: bv32)
    requires x < 0x8000_0000
    ensures Step(Doubled(x)) == x
  {
    hide Xor, Half, Doubled;
    HalfOfDoubled(x);
  }

  lemma {:induction false} TwoSteps(x: bv32)
    requires x < 0x4000_0000
    ensures Steps(Quadrupled(x), 2) == x
  {
    assert x < 0x8000_0000 && x << 1 < 0x8000_0000;
    assert Doubled(x << 1) == Quadrupled(x) && Doubled(x) == x << 1;
    hide Step, Quadrupled, Doubled;
    StepUndoesDoubling(x << 1);
    StepUndoesDoubling(x);
    assert Steps(Quadrupled(x), 2) == Steps(Step(Quadrupled(x)), 1) == Step(Step(Quadrupled(x)));
  }

  lemma {:induction false} UpIs(x: bv32)
    requires x < 0x100_0000
    ensures Up(x) == Quadrupled(Quadrupled(Quadrupled(Quadrupled(x))))
    ensures x < 0x4000_0000 && Quadrupled(x) < 0x4000_0000 && Quadrupled(Quadrupled(x)) < 0x4000_0000
    ensures Quadrupled(Quadrupled(Quadrupled(x))) < 0x4000_0000
  {
    var a := (x << 1) << 1;
    assert Quadrupled(x) == a && a < 0x4000_0000;
    var b := (((x << 1) << 1) << 1) << 1;
    assert Quadrupled(a) == b && b < 0x4000_0000;
    var c := (((((x << 1) << 1) << 1) << 1) << 1) << 1;
    assert Quadrupled(b) == c && c < 0x4000_0000;
    assert Quadrupled(c) == Up(x);
  }

  lemma {:induction false} StepsUndoShift(x: bv32)
    requires x < 0x100_0000
    ensures Steps(Up(x), 8) == x
  {
    hide Steps, Quadrupled, Up;
    UpIs(x);
    var a := Quadrupled(x);
    var b := Quadrupled(a);
    var c := Quadrupled(b);
    TwoSteps(c);
    TwoSteps(b);
    TwoSteps(a);
    TwoSteps(x);
    StepsAdd(Up(x), 2, 6);
    StepsAdd(c, 2, 4);
    StepsAdd(b, 2, 2);
  }

  lemma {:induction false} LowAndRestBits(c: bv32)
    ensures ((((((((((c >> 8) << 1) << 1) << 1) << 1) << 1) << 1) << 1) << 1)) ^ (c & 0xff) == c
  {
  }

  lemma {:induction false} LowAndRest(c: bv32)
    ensures c == Xor(Up(Rest(c)), Low(c))
  {
    LowAndRestBits(c);
    assert Up(c >> 8) == ((((((((((c >> 8) << 1) << 1) << 1) << 1) << 1) << 1) << 1) << 1));
    hide Up;
    assert Xor(Up(c >> 8), c & 0xff) == Up(c >> 8) ^ (c & 0xff);
    assert Rest(c) == c >> 8 && Low(c) == c & 0xff;
    hide Xor, Rest, Low;
  }

  /** Hashing the low byte of `c` into a register leaves the rest of `c` to be merged. */
  lemma {:induction false} TakeByte(r: bv32, c: bv32)
    ensures Xor(Steps(Xor(r, Low(c)), 8), Rest(c)) == Steps(Xor(r, c), 8)
  {
    hide Steps, Xor, Low, Rest, Up;
    var up := Up(Rest(c));
    LowAndRest(c);
    StepsUndoShift(Rest(c));
    XorAssociates(r, Low(c), up);
    XorSwaps(r, Low(c), up);
    XorSwaps(r, up, Low(c));
    XorAssociates(r, up, Low(c));
    StepsLinear(Xor(r, Low(c)), up, 8);
  }

  lemma {:induction false} RawOfLowBytes(r: bv32, c: bv32, k: nat)
    requires Fits(c, k)
    ensures Raw(r, LowBytes(c, k)) == Steps(Xor(r, c), 8 * k)
    decreases k
  {
    hide Steps, Xor, Low, Rest, Bits;
    if k == 0 {
      XorZero(r);
      StepsNone(r);
    } else {
      TakeByte(r, c);
      var r' := Steps(Xor(r, Low(c)), 8);
      assert LowBytes(c, k)[1..] == LowBytes(Rest(c), k - 1);
      RawOfLowBytes(r', Rest(c), k - 1);
      StepsAdd(Xor(r, c), 8, 8 * (k - 1));
    }
  }

  lemma {:induction false} StepsNone(c: bv32)
    ensures Steps(c, 0) == c
  {
  }

  lemma {:induction false} FourFit(c: bv32)
    ensures Fits(c, 4)
  {
    assert (((c >> 8) >> 8) >> 8) >> 8 == 0;
    assert Rest(c) == c >> 8 && Rest(c >> 8) == (c >> 8) >> 8 && Rest((c >> 8) >> 8) == ((c >> 8) >> 8) >> 8;
    assert Rest(((c >> 8) >> 8) >> 8) == 0;
    hide Rest;
    assert Fits(((c >> 8) >> 8) >> 8, 1) && Fits((c >> 8) >> 8, 2);
  }

  /** The field's own bytes contribute exactly the stored checksum, advanced past the field. */
  lemma {:induction false} FieldContribution(c: bv32)
    ensures Raw(0, LittleEndian(c)) == Advance(c, 4)
  {
    hide Raw, Steps, Xor, LowBytes, Fits;
    FourFit(c);
    RawOfLowBytes(0, c, 4);
    XorZero(c);
  }

  lemma {:induction false} FieldDifference(c: bv32)
    ensures Crc32(LittleEndian(c)) == Xor(Crc32(Zeros(4)), Advance(c, 4))
  {
    hide Raw, Advance, LittleEndian, Xor;
    RawSplits(ONES, 0, LittleEndian(c));
    RawOfZeros(ONES, 4);
    FieldContribution(c);
    XorZero(ONES);
    XorSwaps(Advance(ONES, 4), Advance(c, 4), ONES);
  }

  /**
   * Bytes that carry their own checksum: hashing them whole gives the checksum plus the
   * field's contribution advanced to the end.
   */
  lemma {:induction false} CrcOfSealed(before: Bytes, c: bv32, after: Bytes)
    requires c == Crc32(before + Zeros(4) + after)
    ensures Crc32(before + LittleEndian(c) + after) == Xor(c, Advance(c, 4 + |after|))
  {
    hide Raw, Advance, LittleEndian, Xor, Crc32;
    var f, n := LittleEndian(c), |after|;
    var x, z, d := Advance(Crc32(before), 4), Crc32(Zeros(4)), Advance(c, 4);
    assert Crc32(before + f) == Xor(Xor(x, z), d) && Crc32(before + Zeros(4)) == Xor(x, z) by {
      CombineIsConcatenation(before, f);
      CombineIsConcatenation(before, Zeros(4));
      FieldDifference(c);
      XorAssociates(x, z, d);
    }
    CombineIsConcatenation(before + f, after);
    CombineIsConcatenation(before + Zeros(4), after);
    AdvanceLinear(Xor(x, z), d, n);
    AdvanceAdd(c, 4, n);
    XorSwaps(Advance(Xor(x, z), n), Advance(d, n), Crc32(after));
  }

  // ---------- a known value ----------

  lemma {:induction false} LetterBits()
    ensures Xor(0xffff_ffff, Bits(97)) == 0xffff_ff9e
    ensures Step(0xffff_ff9e) == 0x7fff_ffcf
    ensures Step(0x7fff_ffcf) == 0xd247_7cc7
    ensures Step(0xd247_7cc7) == 0x849b_3d43
    ensures Step(0x849b_3d43) == 0xaff5_1d81
    ensures Step(0xaff5_1d81) == 0xba42_0de0
    ensures Step(0xba42_0de0) == 0x5d21_06f0
    ensures Step(0x5d21_06f0) == 0x2e90_8378
    ensures Step(0x2e90_8378) == 0x1748_41bc
  {
  }

  lemma {:induction false} LetterSteps()
    ensures Steps(Xor(0xffff_ffff, Bits(97)), 8) == 0x1748_41bc
  {
    hide Step, Xor, Bits;
    LetterBits();
    assert Steps(0xaff5_1d81, 4) == Steps(0xba42_0de0, 3) == Steps(0x5d21_06f0, 2) == Steps(0x2e90_8378, 1) == Steps(0x1748_41bc, 0);
  }

  lemma {:induction false} OneByteRaw(c: bv32, b: Byte)
    ensures Raw(c, [b]) == Steps(Xor(c, Bits(b)), 8)
  {
    hide Steps, Xor, Bits;
    assert [b][1..] == [];
    assert Raw(Steps(Xor(c, Bits(b)), 8), []) == Steps(Xor(c, Bits(b)), 8);
  }

  /** The CRC of the letter a, as any implementation of it gives. */
  lemma {:induction false} KnownValue()
    ensures Crc32([97]) == 0xe8b7_be43
  {
    hide Steps, Raw, Bits;
    LetterSteps();
    OneByteRaw(ONES, 97);
  }
}
