/** Dividing 64 bits by 32 without a 64-bit divide: the generic branch of
    alsa/include/math64_compat.h. */
module Math64 {
  import opened Arith
  import opened Bits

  const TWO32: nat := 0x1_0000_0000

  /** The loop's account of the dividend: quotient bits found so far, and the rest. */
  ghost predicate Splits(total: nat, q1: nat, div: nat, c: nat, n: nat) {
    total == q1 * (div * Pow2(c)) + n && n < div * Pow2(c)
  }

  lemma Pow32()
    ensures Pow2(32) == TWO32
  {
    assert Pow2(8) == 256;
    PowAdd(8, 8);
    assert Pow2(16) == 0x1_0000;
    PowAdd(16, 16);
  }

  /** One turn: the rest loses `d` when it can, and a quotient bit is appended. */
  lemma Shift(total: nat, q1: nat, div: nat, c: nat, n: nat, d: nat)
    requires c > 0 && d == div * Pow2(c - 1) && Splits(total, q1, div, c, n)
    ensures n >= d ==> Splits(total, 2 * q1 + 1, div, c - 1, n - d)
    ensures n < d ==> Splits(total, 2 * q1, div, c - 1, n)
  {
    assert div * Pow2(c) == 2 * d;
    assert q1 * (2 * d) == 2 * q1 * d;
    assert (2 * q1 + 1) * d == 2 * q1 * d + d;
  }

  lemma Halve(div: nat, c: nat)
    requires c > 1
    ensures div * Pow2(c - 1) / 2 == div * Pow2(c - 2)
  {
    assert div * Pow2(c - 1) == 2 * (div * Pow2(c - 2));
  }

  /** The native divide finishes the quotient below the bits already found. */
  lemma Finish(total: nat, q1: nat, div: nat, c: nat, n: nat, q: nat, r: nat)
    requires div > 0 && Splits(total, q1, div, c, n) && n == q * div + r && r < div
    ensures q < Pow2(c) && Or(q1 * Pow2(c), q) == q1 * Pow2(c) + q
    ensures total == (q1 * Pow2(c) + q) * div + r
  {
    var p := Pow2(c);
    if q >= p {
      MulMonotone(p, q, div);
      assert false;
    }
    OrIsSum(q1, q, c);
    MulSwap(q1, div, p);
    Distribute(q1 * p, q, div);
  }

  lemma QuotientBound(total: nat, q1: nat, div: nat, c: nat, n: nat)
    requires c <= 32 && div > 0 && Splits(total, q1, div, c, n) && total < div * TWO32
    ensures q1 < Pow2(32 - c) && q1 * Pow2(c) + Pow2(c) <= TWO32
  {
    var top, p := Pow2(32 - c), Pow2(c);
    Pow32();
    PowAdd(32 - c, c);
    MulSwap(top, div, p);
    if q1 >= top {
      MulMonotone(top, q1, div * p);
      assert false;
    }
    MulMonotone(q1 + 1, top, p);
    Distribute(q1, 1, p);
  }

  /** Between turns of the loop: the dividend is accounted for, `d` is the
      divisor at the next place, and the quotient so far has 32 - `c` bits. */
  ghost predicate Turning(total: nat, n: nat, d: nat, q1: nat, c: nat, div: nat) {
    && 0 < div < TWO32 && c <= 32 && total < div * TWO32
    && Splits(total, q1, div, c, n) && (c > 0 ==> d == div * Pow2(c - 1))
  }

  /** The first state of the loop. */
  lemma Start(high: nat, low: nat, div: nat)
    requires high < div < TWO32 && low < TWO32
    ensures Or(high * TWO32, low) == high * TWO32 + low
    ensures Turning(high * TWO32 + low, high * TWO32 + low, div * 0x8000_0000, 0, 32, div)
  {
    Pow32();
    OrIsSum(high, low, 32);
    MulMonotone(high + 1, div, TWO32);
    assert Pow2(32) == 2 * Pow2(31);
  }

  /** The loop body. There is a place left to look at, and the quotient stays in 32 bits. */
  method Turn(n: nat, d: nat, q1: nat, c: nat, ghost total: nat, ghost div: nat)
    returns (n': nat, d': nat, q1': nat, c': nat)
    requires Turning(total, n, d, q1, c, div) && n > 0xffff_ffff
    ensures c > 0 && c' == c - 1 && Turning(total, n', d', q1', c', div) && q1' < TWO32
  {
    assert Pow2(0) == 1;
    if c == 0 {
      assert false;
    }
    Shift(total, q1, div, c, n, d);
    OrIsSum(q1, 1, 1);
    if c > 1 {
      Halve(div, c);
    }
    n', q1' := n, q1 * 2;
    if n' >= d {
      n' := n' - d;
      q1' := Or(q1', 1);
    }
    d', c' := d / 2, c - 1;
    QuotientBound(total, q1', div, c', n');
    PowMonotone(32 - c', 32);
    Pow32();
  }

  /** `divl`: every word stays in its width, and the count of shifts above zero
      for as long as the loop runs. */
  method Divl(high: nat, low: nat, div: nat) returns (q: nat, r: nat)
    requires high < div < TWO32 && low < TWO32
    ensures high * TWO32 + low == q * div + r && r < div && q < TWO32
  {
    Start(high, low, div);
    ghost var total := high * TWO32 + low;
    var n: nat, d: nat, q1: nat, c: nat := Or(high * TWO32, low), div * 0x8000_0000, 0, 32;
    while n > 0xffff_ffff
      invariant Turning(total, n, d, q1, c, div)
      decreases c
    {
      n, d, q1, c := Turn(n, d, q1, c, total, div);
    }
    q, r := Tail(n, q1, c, div, total);
  }

  /** What follows the loop: the bits found move to their place and the native divide adds the rest. */
  method Tail(n: nat, q1: nat, c: nat, div: nat, ghost total: nat) returns (q: nat, r: nat)
    requires 0 < div < TWO32 && c <= 32 && total < div * TWO32 && Splits(total, q1, div, c, n)
    ensures total == q * div + r && r < div && q < TWO32
  {
    QuotientBound(total, q1, div, c, n);
    var high := q1 * Pow2(c);
    var rest: nat;
    if n > 0 {
      rest, r := NativeDivide(n, div);
      q := Or(high, rest);
    } else {
      rest, r := 0, 0;
      q := high;
    }
    Finish(total, q1, div, c, n, rest, r);
  }

  /** A divide the machine has: both words of 32 bits. */
  method NativeDivide(n: nat, div: nat) returns (q: nat, r: nat)
    requires div > 0
    ensures n == q * div + r && r < div
  {
    q, r := n / div, n % div;
  }

  /** `div_u64_rem`: quotient and remainder of any 64-bit number by any nonzero 32-bit one. */
  method DivU64Rem(n: nat, div: nat) returns (q: nat, rem: nat)
    requires n < TWO32 * TWO32 && 0 < div < TWO32
    ensures n == q * div + rem && rem < div
  {
    var low: nat, high: nat := n % TWO32, n / TWO32;
    if high != 0 {
      var top, high1 := NativeDivide(high, div);
      var q0;
      q0, rem := Divl(high1, low, div);
      Pow32();
      OrIsSum(top, q0, 32);
      q := Or(top * TWO32, q0);
      Distribute(top * TWO32, q0, div);
      assert n == (top * div + high1) * TWO32 + low;
    } else {
      q, rem := NativeDivide(low, div);
    }
  }
}
