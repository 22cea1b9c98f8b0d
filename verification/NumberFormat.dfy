/** What `number` in alsa/acore/memory_wrapper.c prints, and what it means. */
module NumberFormat {
  import opened Bits

  datatype Flags = Flags(zeropad: bool, sign: bool, plus: bool, space: bool, left: bool, special: bool, large: bool)

  const TWO63: nat := 0x8000_0000_0000_0000
  const TWO64: nat := 0x1_0000_0000_0000_0000

  /** Entry `d` of the source's digit tables: 0 to 9, then the letters. */
  function DigitChar(d: nat, large: bool): char
    requires d < 36
  {
    if d < 10 then ('0' as int + d) as char else ((if large then 'A' else 'a') as int + d - 10) as char
  }

  function Digits(n: nat, base: nat, large: bool): (s: string)
    requires 2 <= base <= 36
    ensures s != []
  {
    if n < base then [DigitChar(n, large)]
    else
      DivideByBase(n, base);
      Digits(n / base, base, large) + [DigitChar(n % base, large)]
  }

  function Max(x: int, y: int): int {
    if x >= y then x else y
  }

  function Rep(c: char, n: int): (s: string)
    ensures |s| == Max(n, 0) && forall i | 0 <= i < |s| :: s[i] == c
  {
    seq(Max(n, 0), _ => c)
  }

  /** The magnitude of a 64-bit word read as signed or as unsigned. */
  function Magnitude(num: nat, f: Flags): (m: nat)
    requires num < TWO64
    ensures m < TWO64
  {
    if f.sign && num >= TWO63 then TWO64 - num else num
  }

  function SignText(num: nat, f: Flags): string {
    if !f.sign then ""
    else if num >= TWO63 then "-"
    else if f.plus then "+"
    else if f.space then " "
    else ""
  }

  function Prefix(base: nat, f: Flags): string {
    if f.special && base == 16 then ['0', DigitChar(33, f.large)]
    else if f.special && base == 8 then "0"
    else ""
  }

  /** The whole text. `size` is the field width, `precision` the least number of digits. */
  function NumberText(num: nat, base: nat, size: int, precision: int, f: Flags): string
    requires num < TWO64 && 2 <= base <= 36
  {
    Layout(SignText(num, f), Prefix(base, f), Digits(Magnitude(num, f), base, f.large), size, precision, f)
  }

  /** Blanks, sign, prefix, padding zeros, precision zeros, digits, blanks. */
  function Layout(sign: string, prefix: string, digits: string, size: int, precision: int, f: Flags): string {
    var zeros := Rep('0', precision - |digits|);
    var pad := size - |sign| - |prefix| - |zeros| - |digits|;
    if f.left then sign + prefix + zeros + digits + Rep(' ', pad)
    else if f.zeropad then sign + prefix + Rep('0', pad) + zeros + digits
    else Rep(' ', pad) + sign + prefix + zeros + digits
  }

  /** The text is as wide as the field, or as wide as sign, prefix and digits need. */
  lemma NumberTextLength(num: nat, base: nat, size: int, precision: int, f: Flags)
    requires num < TWO64 && 2 <= base <= 36
    ensures var digits := Digits(Magnitude(num, f), base, f.large);
            |NumberText(num, base, size, precision, f)| ==
              Max(size, |SignText(num, f)| + |Prefix(base, f)| + Max(precision, |digits|))
  {
  }

  // ----- Digits denote the number -----

  function DigitValue(c: char): nat {
    if '0' <= c <= '9' then c as int - '0' as int
    else if 'a' <= c <= 'z' then c as int - 'a' as int + 10
    else if 'A' <= c <= 'Z' then c as int - 'A' as int + 10
    else 0
  }

  function ValueOf(s: string, base: nat): nat {
    if s == [] then 0 else ValueOf(s[..|s| - 1], base) * base + DigitValue(s[|s| - 1])
  }

  predicate IsDigit(c: char) {
    '0' <= c <= '9'
  }

  lemma DigitCharValue(d: nat, large: bool)
    requires d < 36
    ensures DigitValue(DigitChar(d, large)) == d
    ensures d < 10 <==> IsDigit(DigitChar(d, large))
  {
  }

  lemma DivideByBase(n: nat, base: nat)
    requires base >= 2
    ensures n / base * base + n % base == n
    ensures n / base <= n / 2
    ensures n / base >= 0 && 0 <= n % base < base
    ensures if n < base then n / base == 0 && n % base == n else n / base >= 1
  {
    assert n / base * base <= n;
    assert n / base * 2 <= n / base * base;
  }

  lemma Snoc(s: string, c: char, base: nat)
    ensures ValueOf(s + [c], base) == ValueOf(s, base) * base + DigitValue(c)
  {
    assert (s + [c])[..|s|] == s;
  }

  lemma OneDigit(c: char, base: nat)
    ensures ValueOf([c], base) == DigitValue(c)
  {
    assert [c][..0] == [];
    assert 0 * base == 0;
  }

  /** Reading the digits in their base gives the number back. */
  lemma {:induction false} DigitsValue(n: nat, base: nat, large: bool)
    requires 2 <= base <= 36
    ensures ValueOf(Digits(n, base, large), base) == n
  {
    if n < base {
      OneDigit(DigitChar(n, large), base);
    } else {
      var q := n / base;
      DivideByBase(n, base);
      DigitsValue(q, base, large);
      Snoc(Digits(q, base, large), DigitChar(n % base, large), base);
      DigitCharValue(n % base, large);
    }
  }

  /** A `k`-bit number has at most `k` digits in any base. */
  lemma {:induction false} DigitsBound(n: nat, base: nat, large: bool, k: nat)
    requires 2 <= base <= 36 && 1 <= k && n < Pow2(k)
    ensures |Digits(n, base, large)| <= k
  {
    if n >= base {
      DivideByBase(n, base);
      assert n < 2 * Pow2(k - 1);
      DigitsBound(n / base, base, large, k - 1);
    }
  }

  lemma Pow64()
    ensures Pow2(64) == TWO64
  {
    assert Pow2(8) == 256;
    PowAdd(8, 8);
    assert Pow2(16) == 0x1_0000;
    PowAdd(16, 16);
    assert Pow2(32) == 0x1_0000_0000;
    PowAdd(32, 32);
  }

  // ----- Reading a number back -----

  /** `skip_atoi`: the value of the digits at position `i`, and where they end. */
  function SkipAtoi(s: string, i: nat, acc: nat): (nat, nat)
    decreases |s| - i
  {
    if i < |s| && IsDigit(s[i]) then SkipAtoi(s, i + 1, acc * 10 + DigitValue(s[i])) else (acc, i)
  }

  function SkipSpaces(s: string): nat {
    if s != [] && s[0] == ' ' then 1 + SkipSpaces(s[1..]) else 0
  }

  predicate AllDigits(s: string) {
    forall i | 0 <= i < |s| :: IsDigit(s[i])
  }

  lemma {:induction false} DecimalDigits(n: nat, large: bool)
    ensures AllDigits(Digits(n, 10, large))
  {
    DigitCharValue(n % 10, large);
    if n >= 10 {
      DecimalDigits(n / 10, large);
    }
  }

  lemma {:induction false} SkipAtoiReads(front: string, digits: string, back: string, k: nat)
    requires AllDigits(digits) && k <= |digits| && (back == [] || !IsDigit(back[0]))
    ensures SkipAtoi(front + digits + back, |front| + k, ValueOf(digits[..k], 10))
         == (ValueOf(digits, 10), |front| + |digits|)
    decreases |digits| - k
  {
    var s := front + digits + back;
    if k < |digits| {
      assert s[|front| + k] == digits[k];
      assert digits[..k + 1][..k] == digits[..k];
      SkipAtoiReads(front, digits, back, k + 1);
    } else {
      assert digits[..k] == digits;
    }
  }

  lemma {:induction false} ZerosValue(n: nat, digits: string)
    ensures ValueOf(Rep('0', n) + digits, 10) == ValueOf(digits, 10)
  {
    var s := Rep('0', n) + digits;
    if digits != [] {
      var front := digits[..|digits| - 1];
      ZerosValue(n, front);
      assert s[..|s| - 1] == Rep('0', n) + front;
    } else if n > 0 {
      ZerosValue(n - 1, []);
      assert s[..|s| - 1] == Rep('0', n - 1) + [];
    }
  }

  lemma {:induction false} SpacesSkipped(n: int, s: string)
    requires s == [] || s[0] != ' '
    ensures SkipSpaces(Rep(' ', n) + s) == Max(n, 0)
  {
    var t := Rep(' ', n) + s;
    if n > 0 {
      assert t[1..] == Rep(' ', n - 1) + s;
      SpacesSkipped(n - 1, s);
    } else {
      assert t == s;
    }
  }

  /** Skip blanks, take a sign, read digits. */
  function ReadNumber(s: string): int {
    var i := SkipSpaces(s);
    if i < |s| && s[i] == '-' then 0 - SkipAtoi(s, i + 1, 0).0
    else if i < |s| && s[i] == '+' then SkipAtoi(s, i + 1, 0).0
    else SkipAtoi(s, i, 0).0
  }

  function Denotes(num: nat, f: Flags): int
    requires num < TWO64
  {
    if f.sign && num >= TWO63 then num - TWO64 else num
  }

  /** A sign and digits between blanks read back as the signed value. */
  lemma ReadParts(pad: int, sign: string, digits: string, back: string)
    requires sign in {"", "+", "-"} && digits != [] && AllDigits(digits) && (back == [] || !IsDigit(back[0]))
    ensures ReadNumber(Rep(' ', pad) + sign + digits + back)
         == if sign == "-" then 0 - ValueOf(digits, 10) else ValueOf(digits, 10)
  {
    var s := Rep(' ', pad) + sign + digits + back;
    var rest := sign + digits + back;
    assert s == Rep(' ', pad) + rest;
    assert rest[0] == if sign == "" then digits[0] else sign[0];
    SpacesSkipped(pad, rest);
    assert s[Max(pad, 0)] == rest[0];
    SkipAtoiReads(Rep(' ', pad) + sign, digits, back, 0);
    assert digits[..0] == [];
  }

  /** The same with the sign that `number` prints, which may be one more blank. */
  lemma ReadSigned(pad: int, num: nat, f: Flags, zeros: nat, back: string)
    requires num < TWO64 && (back == [] || !IsDigit(back[0]))
    ensures var digits := Digits(Magnitude(num, f), 10, f.large);
            ReadNumber(Rep(' ', pad) + SignText(num, f) + (Rep('0', zeros) + digits) + back) == Denotes(num, f)
  {
    var m := Magnitude(num, f);
    var digits := Rep('0', zeros) + Digits(m, 10, f.large);
    DecimalDigits(m, f.large);
    DigitsValue(m, 10, f.large);
    ZerosValue(zeros, Digits(m, 10, f.large));
    if SignText(num, f) == " " {
      assert Rep(' ', pad) + " " == Rep(' ', Max(pad, 0) + 1) + "";
      ReadParts(Max(pad, 0) + 1, "", digits, back);
    } else {
      ReadParts(pad, SignText(num, f), digits, back);
    }
  }

  /** `number` without a prefix, as blanks, sign, zeros, digits, blanks. */
  function Plain(front: int, sign: string, zeros: int, digits: string, back: int): string {
    Rep(' ', front) + sign + (Rep('0', zeros) + digits) + Rep(' ', back)
  }

  lemma PlainLeft(sign: string, zeros: int, digits: string, pad: int)
    ensures sign + "" + Rep('0', zeros) + digits + Rep(' ', pad) == Plain(0, sign, zeros, digits, pad)
  {
    assert Rep(' ', 0) + sign == sign && sign + "" == sign;
    assert sign + Rep('0', zeros) + digits == sign + (Rep('0', zeros) + digits);
  }

  lemma PlainZeros(sign: string, pad: int, zeros: int, digits: string)
    ensures sign + "" + Rep('0', pad) + Rep('0', zeros) + digits
         == Plain(0, sign, Max(pad, 0) + Max(zeros, 0), digits, 0)
  {
    assert Rep('0', Max(pad, 0) + Max(zeros, 0)) == Rep('0', pad) + Rep('0', zeros);
    assert sign + "" == sign;
    assert sign + Rep('0', pad) + Rep('0', zeros) == sign + (Rep('0', pad) + Rep('0', zeros));
    PlainLeft(sign, Max(pad, 0) + Max(zeros, 0), digits, 0);
  }

  lemma PlainRight(pad: int, sign: string, zeros: int, digits: string)
    ensures Rep(' ', pad) + sign + "" + Rep('0', zeros) + digits == Plain(pad, sign, zeros, digits, 0)
  {
    assert Rep(' ', pad) + sign + "" == Rep(' ', pad) + sign;
    assert Rep(' ', pad) + sign + Rep('0', zeros) + digits == Rep(' ', pad) + sign + (Rep('0', zeros) + digits);
    assert Plain(pad, sign, zeros, digits, 0) == Rep(' ', pad) + sign + (Rep('0', zeros) + digits);
  }

  /** How the three ways of padding arrange text without a prefix. */
  lemma PlainLayout(sign: string, digits: string, size: int, precision: int, f: Flags)
    returns (front: int, zeros: nat, back: int)
    ensures Layout(sign, "", digits, size, precision, f) == Plain(front, sign, zeros, digits, back)
  {
    zeros := Max(precision - |digits|, 0);
    var pad := size - |sign| - zeros - |digits|;
    assert Rep('0', zeros) == Rep('0', precision - |digits|);
    if f.left {
      front, back := 0, pad;
      PlainLeft(sign, zeros, digits, pad);
    } else if f.zeropad {
      PlainZeros(sign, pad, zeros, digits);
      front, zeros, back := 0, Max(pad, 0) + zeros, 0;
    } else {
      front, back := pad, 0;
      PlainRight(pad, sign, zeros, digits);
    }
  }

  /** Whatever the width, the precision and the flags, decimal output without a
      prefix reads back as the number that was printed. */
  lemma DecimalRoundTrip(num: nat, size: int, precision: int, f: Flags)
    requires num < TWO64
    ensures ReadNumber(NumberText(num, 10, size, precision, f)) == Denotes(num, f)
  {
    var front, zeros, back := PlainLayout(SignText(num, f), Digits(Magnitude(num, f), 10, f.large), size, precision, f);
    assert Prefix(10, f) == "";
    ReadSigned(front, num, f, zeros, Rep(' ', back));
  }

  /** Plain decimal text of a number is read back by `skip_atoi` itself. */
  lemma AtoiRoundTrip(n: nat, large: bool)
    ensures SkipAtoi(Digits(n, 10, large), 0, 0) == (n, |Digits(n, 10, large)|)
  {
    var d := Digits(n, 10, large);
    DecimalDigits(n, large);
    DigitsValue(n, 10, large);
    SkipAtoiReads("", d, "", 0);
    assert "" + d + "" == d && d[..0] == [];
  }
}
