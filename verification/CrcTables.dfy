/** The lookup tables that advance a checksum through a fixed number of zero bytes. */
module CrcTables {
  import opened Keys
  import opened Crc

  const BLANK: seq<bv32> := seq(256, _ => 0)

  type Row = r: seq<bv32> | |r| == 256 witness BLANK
  type Table = t: seq<Row> | |t| == 4 witness [BLANK, BLANK, BLANK, BLANK]

  /** What a table computes: the advance through `n` zero bytes, plus the input itself if `identity`. */
  function Target(n: nat, identity: bool, x: bv32): bv32 {
    if identity then Xor(Advance(x, n), x) else Advance(x, n)
  }

  function Cell(row: Row, v: bv32): bv32
    requires v < 256
  {
    row[AsByte(v)]
  }

  function TransformCrc(table: Table, crc: bv32): bv32 {
    Xor(Xor(Xor(Cell(table[0], Low(crc)), Cell(table[1], Low(Rest(crc)))), Cell(table[2], Low(Rest(Rest(crc))))),
        Cell(table[3], Low(Rest(Rest(Rest(crc))))))
  }

  /** `table` computes its target on every 32-bit value. */
  ghost predicate Transforms(table: Table, n: nat, identity: bool) {
    forall x: bv32 :: TransformCrc(table, x) == Target(n, identity, x)
  }

  lemma {:induction false} TargetLinear(n: nat, identity: bool, a: bv32, b: bv32)
    ensures Target(n, identity, Xor(a, b)) == Xor(Target(n, identity, a), Target(n, identity, b))
  {
    hide Advance, Xor;
    AdvanceLinear(a, b, n);
    var x, y := Advance(a, n), Advance(b, n);
    // (x ^ y) ^ (a ^ b) == (x ^ a) ^ (y ^ b)
    XorAssociates(x, y, Xor(a, b));
    XorAssociates(y, a, b);
    XorSwaps(y, a, b);
    XorAssociates(x, a, Xor(y, b));
    XorAssociates(a, y, b);
    XorCommutes(a, y);
  }

  lemma {:induction false} XorCommutes(a: bv32, b: bv32)
    ensures Xor(a, b) == Xor(b, a)
  {
  }

  // ---------- the four bytes of a word ----------

  /** A byte at byte position `byte` of a word. */
  function Lift(v: bv32, byte: nat): bv32
    decreases byte
  {
    if byte == 0 then v else Up(Lift(v, byte - 1))
  }

  lemma {:induction false} UpLinear(a: bv32, b: bv32)
    ensures Up(Xor(a, b)) == Xor(Up(a), Up(b))
  {
    var u := (((((((a << 1) << 1) << 1) << 1) << 1) << 1) << 1) << 1;
    var v := (((((((b << 1) << 1) << 1) << 1) << 1) << 1) << 1) << 1;
    UpLinearBits(a, b);
    assert Up(a ^ b) == Xor(u, v);
  }

  lemma {:induction false} UpLinearBits(a: bv32, b: bv32)
    ensures ((((((((a ^ b) << 1) << 1) << 1) << 1) << 1) << 1) << 1) << 1 ==
            ((((((((a << 1) << 1) << 1) << 1) << 1) << 1) << 1) << 1) ^ ((((((((b << 1) << 1) << 1) << 1) << 1) << 1) << 1) << 1)
  {
  }

  lemma {:induction false} LiftLinear(a: bv32, b: bv32, byte: nat)
    ensures Lift(Xor(a, b), byte) == Xor(Lift(a, byte), Lift(b, byte))
    decreases byte
  {
    hide Xor, Up;
    if byte > 0 {
      LiftLinear(a, b, byte - 1);
      UpLinear(Lift(a, byte - 1), Lift(b, byte - 1));
    }
  }

  lemma {:induction false} LiftOfUp(v: bv32, byte: nat)
    ensures Lift(v, byte + 1) == Lift(Up(v), byte)
    decreases byte
  {
    hide Up;
    if byte > 0 {
      LiftOfUp(v, byte - 1);
    }
  }

  /** A word is the sum of its lifted bytes. */
  lemma {:induction false} WordIsItsBytes(c: bv32)
    ensures c == Xor(Xor(Xor(Lift(Low(c), 0), Lift(Low(Rest(c)), 1)), Lift(Low(Rest(Rest(c))), 2)), Lift(Low(Rest(Rest(Rest(c)))), 3))
  {
    var r1, r2, r3 := Rest(c), Rest(Rest(c)), Rest(Rest(Rest(c)));
    TopByte(c);
    hide Xor, Up, Low, Rest;
    LowAndRest(c);
    LowAndRest(r1);
    LowAndRest(r2);
    var a, b, d, e := Lift(Low(c), 0), Lift(Low(r1), 1), Lift(Low(r2), 2), Lift(Low(r3), 3);
    UpLinear(Up(r3), Low(r2));
    UpLinear(Up(r2), Low(r1));
    UpLinear(Up(Up(r3)), Up(Low(r2)));
    assert b == Up(Low(r1)) && d == Up(Up(Low(r2))) && e == Up(Up(Up(r3)));
    assert c == Xor(Xor(Xor(e, d), b), a);
    ReverseSum(a, b, d, e);
  }

  lemma {:induction false} TopByte(c: bv32)
    ensures Low(Rest(Rest(Rest(c)))) == Rest(Rest(Rest(c)))
  {
    assert (((c >> 8) >> 8) >> 8) & 0xff == ((c >> 8) >> 8) >> 8;
    assert Rest(c) == c >> 8 && Rest(c >> 8) == (c >> 8) >> 8 && Rest((c >> 8) >> 8) == ((c >> 8) >> 8) >> 8;
    assert Low(((c >> 8) >> 8) >> 8) == (((c >> 8) >> 8) >> 8) & 0xff;
  }

  lemma {:induction false} ReverseSum(a: bv32, b: bv32, d: bv32, e: bv32)
    ensures Xor(Xor(Xor(e, d), b), a) == Xor(Xor(Xor(a, b), d), e)
  {
    hide Xor;
    XorCommutes(e, d);
    XorSwaps(d, e, b);
    XorSwaps(Xor(d, b), e, a);
    XorCommutes(d, b);
    XorSwaps(b, d, a);
    XorCommutes(b, a);
  }

  // ---------- single bits ----------

  function Small(r: nat): bv32
    requires r < 8
  {
    match r
    case 0 => 1
    case 1 => 2
    case 2 => 4
    case 3 => 8
    case 4 => 16
    case 5 => 32
    case 6 => 64
    case _ => 128
  }

  /** Bit `k` of a word. */
  function Bit(k: nat): bv32
    requires k < 32
  {
    Lift(Small(k % 8), k / 8)
  }

  function TrailingZeros(v: bv32): (r: nat)
    requires 0 < v < 256
    ensures r < 8
  {
    if v & 1 != 0 then 0 else if v & 2 != 0 then 1 else if v & 4 != 0 then 2 else if v & 8 != 0 then 3
    else if v & 16 != 0 then 4 else if v & 32 != 0 then 5 else if v & 64 != 0 then 6 else 7
  }

  lemma {:induction false} LowestBit(v: bv32)
    requires 0 < v < 256
    ensures v & (v - 1) < v && v == Xor(v & (v - 1), Small(TrailingZeros(v)))
  {
  }

  lemma {:induction false} UpOfDoubled(x: bv32)
    ensures Up(Doubled(x)) == Doubled(Up(x))
  {
    var u := (((((((x << 1) << 1) << 1) << 1) << 1) << 1) << 1) << 1;
    assert Up(x << 1) == u << 1;
    assert Doubled(u) == u << 1;
  }

  lemma {:induction false} LiftOfDoubled(x: bv32, byte: nat)
    ensures Lift(Doubled(x), byte) == Doubled(Lift(x, byte))
    decreases byte
  {
    hide Up, Doubled;
    if byte > 0 {
      LiftOfDoubled(x, byte - 1);
      UpOfDoubled(Lift(x, byte - 1));
    }
  }

  lemma {:induction false} LiftFits(x: bv32, byte: nat)
    requires (x <= 64 && byte <= 3) || (x <= 128 && byte <= 2)
    ensures Lift(x, byte) < 0x8000_0000
  {
    var u1 := (((((((x << 1) << 1) << 1) << 1) << 1) << 1) << 1) << 1;
    assert Up(x) == u1 && u1 <= 0x8000;
    var u2 := (((((((u1 << 1) << 1) << 1) << 1) << 1) << 1) << 1) << 1;
    assert Up(u1) == u2 && u2 <= 0x80_0000;
    var u3 := (((((((u2 << 1) << 1) << 1) << 1) << 1) << 1) << 1) << 1;
    assert Up(u2) == u3;
    assert Lift(x, 0) == x && Lift(x, 1) == u1 && Lift(x, 2) == u2 && Lift(x, 3) == u3;
    if x <= 64 {
      assert u1 <= 0x4000 && u2 <= 0x40_0000 && u3 <= 0x4000_0000;
    }
  }

  lemma {:induction false} SmallDoubles(r: nat)
    requires r < 7
    ensures Small(r + 1) == Doubled(Small(r)) && Small(r) <= 64
  {
  }

  lemma {:induction false} UpOfOne()
    ensures Up(Small(0)) == Doubled(Small(7))
  {
  }

  /** One step of the register moves a bit down by one place. */
  lemma {:induction false} StepOfBit(k: nat)
    requires k < 31
    ensures Step(Bit(k + 1)) == Bit(k)
  {
    hide Step, Up, Doubled, Lift;
    var r, q := k % 8, k / 8;
    if r < 7 {
      assert (k + 1) % 8 == r + 1 && (k + 1) / 8 == q;
      SmallDoubles(r);
    } else {
      assert (k + 1) % 8 == 0 && (k + 1) / 8 == q + 1;
      LiftOfUp(Small(0), q);
      UpOfOne();
    }
    LiftOfDoubled(Small(r), q);
    LiftFits(Small(r), q);
    StepUndoesDoubling(Lift(Small(r), q));
  }

  // ---------- the engine's form of one step and its inverse ----------

  lemma {:induction false} MaskedStep(c: bv32)
    ensures Step(c) == (c >> 1) ^ (POLYNOMIAL & (0 - (c & 1)))
  {
    LowBit(c);
    if c & 1 == 1 {
      assert POLYNOMIAL & (0 - 1) == POLYNOMIAL;
    } else {
      assert POLYNOMIAL & (0 - 0) == 0;
    }
  }

  function StepBack(f: bv32): bv32 {
    ((f ^ (POLYNOMIAL & (0 - (f >> 31)))) << 1) | (f >> 31)
  }

  lemma {:induction false} StepBackOdd(c: bv32)
    requires c & 1 == 1
    ensures StepBack((c >> 1) ^ POLYNOMIAL) == c
  {
  }

  lemma {:induction false} StepBackEven(c: bv32)
    requires c & 1 == 0
    ensures StepBack(c >> 1) == c
  {
  }

  lemma {:induction false} StepBackUndoes(c: bv32)
    ensures StepBack(Step(c)) == c
  {
    LowBit(c);
    if c & 1 == 1 {
      StepBackOdd(c);
      assert Step(c) == (c >> 1) ^ POLYNOMIAL;
    } else {
      StepBackEven(c);
    }
  }

  lemma {:induction false} StepLast(c: bv32, n: nat)
    ensures Steps(Step(c), n) == Step(Steps(c, n)) == Steps(c, n + 1)
  {
    hide Step;
    StepsAdd(c, n, 1);
    OneStep(Steps(c, n));
  }

  lemma {:induction false} OneStep(c: bv32)
    ensures Steps(c, 1) == Step(c)
  {
  }

  /** Undoing one step takes the advance of one bit to the advance of the next. */
  lemma {:induction false} NextBasis(k: nat, n: nat)
    requires k < 31
    ensures StepBack(Advance(Bit(k), n)) == Advance(Bit(k + 1), n)
  {
    hide Step, Steps, StepBack, Bit;
    StepOfBit(k);
    StepLast(Bit(k + 1), 8 * n);
    StepBackUndoes(Advance(Bit(k + 1), n));
  }

  // ---------- building a table ----------

  method FirstBasis(zeroBytes: nat) returns (first: bv32)
    ensures first == Advance(1, zeroBytes)
  {
    hide Step, Steps;
    first := 1;
    StepsNone(first);
    var remaining := zeroBytes * 8;
    while remaining != 0
      invariant 0 <= remaining <= zeroBytes * 8
      invariant first == Steps(1, zeroBytes * 8 - remaining)
      decreases remaining
    {
      MaskedStep(first);
      StepLast(1, zeroBytes * 8 - remaining);
      first := (first >> 1) ^ (POLYNOMIAL & (0 - (first & 1)));
      remaining := remaining - 1;
    }
  }

  ghost predicate BasisUpTo(basis: seq<bv32>, n: nat, identity: bool, k: nat) {
    |basis| == 32 && forall i :: 0 <= i < k && i < 32 ==> basis[i] == Target(n, identity, Bit(i))
  }

  method Basis(zeroBytes: nat, includeIdentity: bool) returns (basis: seq<bv32>)
    ensures BasisUpTo(basis, zeroBytes, includeIdentity, 32)
  {
    hide Advance, StepBack, Xor, Bit;
    var first := FirstBasis(zeroBytes);
    BitZero();
    basis := seq(32, _ => 0);
    var bit := 0;
    while bit < 32
      invariant 0 <= bit <= 32
      invariant bit < 32 ==> first == Advance(Bit(bit), zeroBytes)
      invariant BasisUpTo(basis, zeroBytes, includeIdentity, bit)
    {
      basis := basis[bit := if includeIdentity then Xor(first, Bit(bit)) else first];
      if bit < 31 {
        NextBasis(bit, zeroBytes);
      }
      first := StepBack(first);
      bit := bit + 1;
    }
  }

  lemma {:induction false} BitZero()
    ensures Bit(0) == 1
  {
  }

  ghost predicate RowUpTo(row: Row, n: nat, identity: bool, byte: nat, value: bv32) {
    forall v: bv32 :: v < value && v < 256 ==> Cell(row, v) == Target(n, identity, Lift(v, byte))
  }

  lemma {:induction false} SetCell(row: Row, n: nat, identity: bool, byte: nat, value: bv32, x: bv32)
    requires value < 256 && RowUpTo(row, n, identity, byte, value) && x == Target(n, identity, Lift(value, byte))
    ensures RowUpTo(row[AsByte(value) := x], n, identity, byte, value + 1)
  {
    hide Target, Lift, Cell;
    forall v: bv32 | v < value + 1 && v < 256 ensures Cell(row[AsByte(value) := x], v) == Target(n, identity, Lift(v, byte)) {
      SetOneCell(row, value, x, v);
      if v != value {
        AtMostButNot(v, value);
      }
    }
  }

  lemma {:induction false} SetOneCell(row: Row, value: bv32, x: bv32, v: bv32)
    requires value < 256 && v < 256
    ensures Cell(row[AsByte(value) := x], v) == if v == value then x else Cell(row, v)
  {
    hide Bits;
    assert Bits(AsByte(v)) == v && Bits(AsByte(value)) == value;
    hide AsByte;
  }

  lemma {:induction false} AtMostButNot(v: bv32, value: bv32)
    requires value < 256 && v < value + 1 && v != value
    ensures v < value
  {
  }

  lemma {:induction false} ZeroCell(row: Row, n: nat, identity: bool, byte: nat)
    requires row[0] == 0
    ensures RowUpTo(row, n, identity, byte, 1)
  {
    forall v: bv32 | v < 1 && v < 256 ensures Cell(row, v) == Target(n, identity, Lift(v, byte)) {
      assert v == 0;
      hide Advance;
      LiftOfZero(byte);
      AdvanceTrivial(0, n);
    }
  }

  lemma {:induction false} LiftOfZero(byte: nat)
    ensures Lift(0, byte) == 0
    decreases byte
  {
    if byte > 0 {
      LiftOfZero(byte - 1);
    }
  }

  lemma {:induction false} CellFromBasis(row: Row, basis: seq<bv32>, n: nat, identity: bool, byte: nat, value: bv32)
    requires 0 < value < 256 && byte < 4
    requires RowUpTo(row, n, identity, byte, value) && BasisUpTo(basis, n, identity, 32)
    ensures value & (value - 1) < 256
    ensures Xor(Cell(row, value & (value - 1)), basis[byte * 8 + TrailingZeros(value)]) == Target(n, identity, Lift(value, byte))
  {
    hide Target, Lift, Cell, Xor, TrailingZeros;
    LowestBit(value);
    var rest, low := value & (value - 1), Small(TrailingZeros(value));
    var k := byte * 8 + TrailingZeros(value);
    assert k % 8 == TrailingZeros(value) && k / 8 == byte;
    assert Bit(k) == Lift(low, byte);
    LiftLinear(rest, low, byte);
    TargetLinear(n, identity, Lift(rest, byte), Lift(low, byte));
  }

  method TableRow(basis: seq<bv32>, byte: nat, ghost n: nat, ghost identity: bool) returns (row: Row)
    requires byte < 4 && BasisUpTo(basis, n, identity, 32)
    ensures RowUpTo(row, n, identity, byte, 256)
  {
    hide Target, Lift, Xor, TrailingZeros, RowUpTo;
    row := BLANK;
    ZeroCell(row, n, identity, byte);
    var value: bv32 := 1;
    while value < 256
      invariant 0 < value <= 256
      invariant RowUpTo(row, n, identity, byte, value)
      decreases 256 - value
    {
      CellFromBasis(row, basis, n, identity, byte, value);
      var entry := Xor(Cell(row, value & (value - 1)), basis[byte * 8 + TrailingZeros(value)]);
      SetCell(row, n, identity, byte, value, entry);
      row := row[AsByte(value) := entry];
      value := value + 1;
    }
  }

  /** Builds the table for `zeroBytes` zero bytes. */
  method CrcTransform(zeroBytes: nat, includeIdentity: bool) returns (table: Table)
    ensures Transforms(table, zeroBytes, includeIdentity)
  {
    hide Target, Lift, Xor, RowUpTo, BasisUpTo;
    var basis := Basis(zeroBytes, includeIdentity);
    var rows: seq<Row> := [];
    var byte: nat := 0;
    while byte < 4
      invariant byte <= 4 && |rows| == byte
      invariant forall i :: 0 <= i < byte ==> RowUpTo(rows[i], zeroBytes, includeIdentity, i, 256)
    {
      var row := TableRow(basis, byte, zeroBytes, includeIdentity);
      rows := rows + [row];
      byte := byte + 1;
    }
    table := rows;
    RowsTransform(table, zeroBytes, includeIdentity);
  }

  lemma {:induction false} RowsTransform(table: Table, n: nat, identity: bool)
    requires forall i :: 0 <= i < 4 ==> RowUpTo(table[i], n, identity, i, 256)
    ensures Transforms(table, n, identity)
  {
    hide Target, Lift, Xor, Low, Rest, Cell;
    forall x: bv32 ensures TransformCrc(table, x) == Target(n, identity, x) {
      var a, b, c, d := Low(x), Low(Rest(x)), Low(Rest(Rest(x))), Low(Rest(Rest(Rest(x))));
      WordIsItsBytes(x);
      TargetLinear(n, identity, Xor(Xor(Lift(a, 0), Lift(b, 1)), Lift(c, 2)), Lift(d, 3));
      TargetLinear(n, identity, Xor(Lift(a, 0), Lift(b, 1)), Lift(c, 2));
      TargetLinear(n, identity, Lift(a, 0), Lift(b, 1));
      assert RowUpTo(table[0], n, identity, 0, 256) && RowUpTo(table[1], n, identity, 1, 256);
      assert RowUpTo(table[2], n, identity, 2, 256) && RowUpTo(table[3], n, identity, 3, 256);
    }
  }
}
