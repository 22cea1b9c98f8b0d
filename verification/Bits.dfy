/** Bitwise operations on unsigned words, bit by bit. */
module Bits {
  import opened Arith

  function And(a: nat, b: nat): nat
    decreases a + b
  {
    if a == 0 || b == 0 then 0 else 2 * And(a / 2, b / 2) + (if a % 2 == 1 && b % 2 == 1 then 1 else 0)
  }

  function Or(a: nat, b: nat): nat
    decreases a + b
  {
    if a == 0 then b else if b == 0 then a
    else 2 * Or(a / 2, b / 2) + (if a % 2 == 1 || b % 2 == 1 then 1 else 0)
  }

  /** `a & ~b`. */
  function AndNot(a: nat, b: nat): nat {
    if a == 0 then 0 else 2 * AndNot(a / 2, b / 2) + (if a % 2 == 1 && b % 2 == 0 then 1 else 0)
  }

  /** `WRITE_MASK`: the bits of `val` under the mask, those of `word` elsewhere. */
  function WriteMask(word: nat, val: nat, mask: nat): nat {
    Or(AndNot(word, mask), And(val, mask))
  }

  function Pow2(k: nat): (p: nat)
    ensures p >= 1
  {
    if k == 0 then 1 else 2 * Pow2(k - 1)
  }

  lemma {:induction false} PowAdd(a: nat, b: nat)
    ensures Pow2(a + b) == Pow2(a) * Pow2(b)
  {
    if a > 0 {
      PowAdd(a - 1, b);
      assert Pow2(a) * Pow2(b) == 2 * (Pow2(a - 1) * Pow2(b));
    }
  }

  lemma {:induction false} PowMonotone(a: nat, b: nat)
    requires a <= b
    ensures Pow2(a) <= Pow2(b)
  {
    if a < b {
      PowMonotone(a, b - 1);
    }
  }

  lemma {:induction false} AndComm(a: nat, b: nat)
    ensures And(a, b) == And(b, a)
    decreases a + b
  {
    if a > 0 && b > 0 {
      AndComm(a / 2, b / 2);
    }
  }

  lemma AndStep(a: nat, b: nat)
    ensures And(a, b) == 2 * And(a / 2, b / 2) + (if a % 2 == 1 && b % 2 == 1 then 1 else 0)
  {
  }

  lemma OrStep(a: nat, b: nat)
    ensures Or(a, b) == 2 * Or(a / 2, b / 2) + (if a % 2 == 1 || b % 2 == 1 then 1 else 0)
  {
  }

  lemma WriteMaskStep(w: nat, v: nat, m: nat)
    ensures WriteMask(w, v, m) == 2 * WriteMask(w / 2, v / 2, m / 2) + (if m % 2 == 1 then v % 2 else w % 2)
  {
    AndStep(v, m);
    OrStep(AndNot(w, m), And(v, m));
  }

  /** Or of two words with no common bit is their sum. */
  lemma {:induction false} OrIsSum(hi: nat, lo: nat, k: nat)
    requires lo < Pow2(k)
    ensures Or(hi * Pow2(k), lo) == hi * Pow2(k) + lo
  {
    if k > 0 {
      var h := hi * Pow2(k - 1);
      assert hi * Pow2(k) == 2 * h;
      OrStep(2 * h, lo);
      OrIsSum(hi, lo / 2, k - 1);
    } else {
      assert lo == 0 && Pow2(0) == 1;
    }
  }

  /** Masks with no common bit see disjoint parts of a word. */
  lemma {:induction false} AndSum(x: nat, a: nat, b: nat)
    requires And(a, b) == 0
    ensures And(x, a + b) == And(x, a) + And(x, b)
    decreases a + b
  {
    if a + b > 0 {
      AndStep(a, b);
      AndStep(x, a + b);
      AndStep(x, a);
      AndStep(x, b);
      assert (a + b) / 2 == a / 2 + b / 2;
      AndSum(x / 2, a / 2, b / 2);
    }
  }

  lemma {:induction false} AndBound(a: nat, b: nat)
    ensures And(a, b) <= a && And(a, b) <= b
    decreases a + b
  {
    if a > 0 && b > 0 {
      AndBound(a / 2, b / 2);
    }
  }

  /** A mask of `k` ones keeps the value modulo 2^k. */
  lemma {:induction false} AndOnes(a: nat, k: nat)
    ensures And(a, Pow2(k) - 1) == a % Pow2(k)
  {
    AndStep(a, Pow2(k) - 1);
    if k > 0 {
      var p := Pow2(k - 1);
      AndOnes(a / 2, k - 1);
      assert (2 * p - 1) / 2 == p - 1;
      HalfMod(a, p);
    }
  }

  lemma HalfMod(a: nat, p: nat)
    requires p >= 1
    ensures a % (2 * p) == 2 * (a / 2 % p) + a % 2
  {
    var q, r := a / 2 / p, a / 2 % p;
    assert a / 2 == q * p + r;
    assert a == q * (2 * p) + (2 * r + a % 2);
    ModUnique(a, 2 * p, q, 2 * r + a % 2);
  }

  /** Flipping the bits under a mask of `k` ones. */
  lemma {:induction false} AndNotOnes(v: nat, k: nat)
    requires v < Pow2(k)
    ensures AndNot(Pow2(k) - 1, v) == Pow2(k) - 1 - v
  {
    if k > 0 {
      assert (2 * Pow2(k - 1) - 1) / 2 == Pow2(k - 1) - 1;
      AndNotOnes(v / 2, k - 1);
    }
  }

  lemma AndFits(v: nat, k: nat)
    requires v < Pow2(k)
    ensures And(v, Pow2(k) - 1) == v
  {
    AndOnes(v, k);
    ModUnique(v, Pow2(k), 0, v);
  }

  /** Bits clear of the mask survive a masked write. */
  lemma {:induction false} MaskedWrite(w: nat, v: nat, m: nat, other: nat)
    requires And(m, other) == 0
    ensures And(WriteMask(w, v, m), other) == And(w, other)
    decreases other
  {
    if other > 0 {
      AndStep(m, other);
      WriteMaskStep(w, v, m);
      AndStep(WriteMask(w, v, m), other);
      AndStep(w, other);
      MaskedWrite(w / 2, v / 2, m / 2, other / 2);
    }
  }

  /** The bits under the mask become those written. */
  lemma {:induction false} WrittenBits(w: nat, v: nat, m: nat)
    ensures And(WriteMask(w, v, m), m) == And(v, m)
    decreases m
  {
    if m > 0 {
      WriteMaskStep(w, v, m);
      AndStep(WriteMask(w, v, m), m);
      AndStep(v, m);
      WrittenBits(w / 2, v / 2, m / 2);
    }
  }

  /** And so do those of any part of it. */
  lemma {:induction false} WrittenPart(w: nat, v: nat, m: nat, part: nat)
    requires And(m, part) == part
    ensures And(WriteMask(w, v, m), part) == And(v, part)
    decreases part
  {
    if part > 0 {
      AndStep(m, part);
      AndStep(v, part);
      AndStep(WriteMask(w, v, m), part);
      WriteMaskStep(w, v, m);
      AndBound(m / 2, part / 2);
      WrittenPart(w / 2, v / 2, m / 2, part / 2);
    }
  }

  /** Bits outside the mask stay what they were. */
  lemma {:induction false} OutsideMask(w: nat, v: nat, m: nat)
    ensures AndNot(WriteMask(w, v, m), m) == AndNot(w, m)
    decreases w + m
  {
    WriteMaskStep(w, v, m);
    AndNotStep(WriteMask(w, v, m), m);
    AndNotStep(w, m);
    if w + m > 0 {
      OutsideMask(w / 2, v / 2, m / 2);
    }
  }

  lemma WrittenOutsideStep(w: nat, v: nat, m: nat, other: nat)
    ensures AndNot(WriteMask(w, v, m), other)
         == 2 * AndNot(WriteMask(w / 2, v / 2, m / 2), other / 2)
            + if other % 2 == 1 then 0 else if m % 2 == 1 then v % 2 else w % 2
  {
    WriteMaskStep(w, v, m);
    AndNotStep(WriteMask(w, v, m), other);
  }

  /** A masked write keeps two words equal outside any other mask. */
  lemma {:induction false} WriteOutside(a: nat, b: nat, v: nat, m: nat, other: nat)
    requires AndNot(a, other) == AndNot(b, other)
    ensures AndNot(WriteMask(a, v, m), other) == AndNot(WriteMask(b, v, m), other)
    decreases a + b + v + m
  {
    WrittenOutsideStep(a, v, m, other);
    WrittenOutsideStep(b, v, m, other);
    AndNotStep(a, other);
    AndNotStep(b, other);
    if a + b + v + m > 0 {
      WriteOutside(a / 2, b / 2, v / 2, m / 2, other / 2);
    }
  }

  /** A field clear of the mask reads the same in words that are equal outside it. */
  lemma {:induction false} SeenOutside(a: nat, b: nat, field: nat, mask: nat)
    requires AndNot(a, mask) == AndNot(b, mask) && And(field, mask) == 0
    ensures And(a, field) == And(b, field)
    decreases field
  {
    AndNotStep(a, mask);
    AndNotStep(b, mask);
    AndStep(a, field);
    AndStep(b, field);
    AndStep(field, mask);
    if field > 0 {
      SeenOutside(a / 2, b / 2, field / 2, mask / 2);
    }
  }

  lemma AndNotStep(a: nat, b: nat)
    ensures AndNot(a, b) == 2 * AndNot(a / 2, b / 2) + (if a % 2 == 1 && b % 2 == 0 then 1 else 0)
  {
  }

  /** `v << n`. */
  function Shl(v: nat, n: nat): nat {
    if n == 0 then v else 2 * Shl(v, n - 1)
  }

  /** `v >> n`. */
  function Shr(v: nat, n: nat): nat {
    if n == 0 then v else Shr(v / 2, n - 1)
  }

  /** A field written at a shift is found by shifting back. */
  lemma {:induction false} FieldHolds(w: nat, e: nat, m: nat, n: nat)
    ensures And(Shr(WriteMask(w, Shl(e, n), Shl(m, n)), n), m) == And(e, m)
  {
    if n == 0 {
      WrittenBits(w, e, m);
    } else {
      WriteMaskStep(w, Shl(e, n), Shl(m, n));
      FieldHolds(w / 2, e, m, n - 1);
    }
  }

  /** What a field reads depends on its own bits alone. */
  lemma {:induction false} FieldSeen(w1: nat, w2: nat, m: nat, n: nat)
    requires And(w1, Shl(m, n)) == And(w2, Shl(m, n))
    ensures And(Shr(w1, n), m) == And(Shr(w2, n), m)
  {
    if n > 0 {
      AndStep(w1, Shl(m, n));
      AndStep(w2, Shl(m, n));
      FieldSeen(w1 / 2, w2 / 2, m, n - 1);
    }
  }

  lemma Doubled(a: nat, k: nat)
    requires k > 0
    ensures a * Pow2(k) == 2 * (a * Pow2(k - 1)) && a * Pow2(k - 1) >= 0
  {
  }

  lemma AndDoubled(x: nat, b: nat, y: nat, d: nat)
    ensures And(2 * x + b, 2 * y + d)
         == 2 * And(x + b / 2, y + d / 2) + And(b, d) - 2 * And(b / 2, d / 2)
  {
    AndStep(2 * x + b, 2 * y + d);
    AndStep(b, d);
  }

  /** Words of two halves. */
  lemma {:induction false} AndHalves(a: nat, b: nat, c: nat, d: nat, k: nat)
    requires b < Pow2(k) && d < Pow2(k)
    ensures And(a * Pow2(k) + b, c * Pow2(k) + d) == And(a, c) * Pow2(k) + And(b, d)
  {
    if k == 0 {
      assert And(b, d) == 0;
    } else {
      AndHalves(a, b / 2, c, d / 2, k - 1);
      Doubled(a, k);
      Doubled(c, k);
      Doubled(And(a, c), k);
      AndDoubled(a * Pow2(k - 1), b, c * Pow2(k - 1), d);
    }
  }

  lemma {:induction false} ShrHalves(a: nat, b: nat, k: nat)
    requires b < Pow2(k)
    ensures Shr(a * Pow2(k) + b, k) == a
  {
    if k > 0 {
      assert a * Pow2(k) + b == 2 * (a * Pow2(k - 1)) + b;
      ShrHalves(a, b / 2, k - 1);
    }
  }

  lemma {:induction false} ShlIsProduct(v: nat, n: nat)
    ensures Shl(v, n) == v * Pow2(n)
  {
    if n > 0 {
      ShlIsProduct(v, n - 1);
    }
  }
}
