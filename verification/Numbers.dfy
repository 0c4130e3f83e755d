/** Integers of fixed width, in either byte order. */
module Numbers {
  import opened Keys

  const U16: nat := 0x1_0000
  const U32: nat := 0x1_0000_0000
  const U64: nat := 0x1_0000_0000_0000_0000

  function Le(n: nat, width: nat): (r: Bytes)
    ensures |r| == width
  {
    if width == 0 then [] else [n % 256] + Le(n / 256, width - 1)
  }

  function NatOf(bytes: Bytes): nat {
    if bytes == [] then 0 else bytes[0] + 256 * NatOf(bytes[1..])
  }

  function Range(width: nat): nat {
    if width == 0 then 1 else 256 * Range(width - 1)
  }

  lemma {:induction false} Ranges()
    ensures Range(2) == U16 && Range(4) == U32 && Range(8) == U64
  {
    assert Range(1) == 256;
    assert Range(4) == 256 * (256 * Range(2));
    assert Range(8) == 256 * (256 * (256 * (256 * Range(4))));
  }

  lemma {:induction false} LeRoundTrip(n: nat, width: nat)
    requires n < Range(width)
    ensures NatOf(Le(n, width)) == n
    decreases width
  {
    if width > 0 {
      LeRoundTrip(n / 256, width - 1);
      assert Le(n, width)[1..] == Le(n / 256, width - 1);
    }
  }

  lemma {:induction false} Le2(n: nat)
    requires n < U16
    ensures NatOf(Le(n, 2)) == n
  {
    Ranges();
    LeRoundTrip(n, 2);
  }

  lemma {:induction false} Le4(n: nat)
    requires n < U32
    ensures NatOf(Le(n, 4)) == n
  {
    Ranges();
    LeRoundTrip(n, 4);
  }

  lemma {:induction false} Le8(n: nat)
    requires n < U64
    ensures NatOf(Le(n, 8)) == n
  {
    Ranges();
    LeRoundTrip(n, 8);
  }

  lemma {:induction false} NatOfBounded(bytes: Bytes)
    ensures NatOf(bytes) < Range(|bytes|)
    decreases |bytes|
  {
    if bytes != [] {
      NatOfBounded(bytes[1..]);
    }
  }

  // ---------- big-endian ----------

  function Be(n: nat, width: nat): (r: Bytes)
    ensures |r| == width
  {
    if width == 0 then [] else Be(n / 256, width - 1) + [n % 256]
  }

  /** Lexicographic order of equal-length strings is decided by the first difference. */
  lemma {:induction false} LessAppend(a: Bytes, b: Bytes, x: Bytes, y: Bytes)
    requires |a| == |b|
    ensures Less(a + x, b + y) <==> Less(a, b) || (a == b && Less(x, y))
    decreases |a|
  {
    if |a| == 0 {
      assert a + x == x && b + y == y;
    } else {
      assert (a + x)[1..] == a[1..] + x && (b + y)[1..] == b[1..] + y;
      LessAppend(a[1..], b[1..], x, y);
      assert a == [a[0]] + a[1..] && b == [b[0]] + b[1..];
      KeyOrder();
    }
  }

  /** Big-endian integers sort as numbers. */
  lemma {:induction false} BeOrder(a: nat, b: nat, width: nat)
    requires a < Range(width) && b < Range(width)
    ensures (Less(Be(a, width), Be(b, width)) <==> a < b) && (Be(a, width) == Be(b, width) <==> a == b)
    decreases width
  {
    if width > 0 {
      var x, y := a / 256, b / 256;
      BeOrder(x, y, width - 1);
      LessAppend(Be(x, width - 1), Be(y, width - 1), [a % 256], [b % 256]);
      assert Less([a % 256], [b % 256]) <==> a % 256 < b % 256;
      if Be(a, width) == Be(b, width) {
        assert Be(a, width)[..width - 1] == Be(x, width - 1) && Be(b, width)[..width - 1] == Be(y, width - 1);
        assert Be(a, width)[width - 1] == a % 256 && Be(b, width)[width - 1] == b % 256;
      }
    }
  }
}
