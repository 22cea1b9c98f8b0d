/** `snd_compat_vsnprintf` of alsa/acore/memory_wrapper.c: a format interpreter
    that writes through a cursor which stops storing at the end of the buffer
    but keeps counting. Words are those of an LP64 machine. */
module Vsnprintf {
  import opened NumberFormat

  // ----- Formats and arguments -----

  /** Arguments as `va_arg` fetches them: a machine word or a C string. */
  datatype Arg = Word(w: nat) | Str(s: string) | NullStr

  const POINTER_BYTES: nat := 8

  /** The next word; where C leaves the fetch undefined (no argument, or one of
      another type) the word is 0. */
  function NextWord(args: seq<Arg>): nat {
    if args != [] && args[0].Word? then args[0].w else 0
  }

  function NextString(args: seq<Arg>): string {
    if args != [] && args[0].Str? then CString(args[0].s) else "<NULL>"
  }

  function Rest(args: seq<Arg>): seq<Arg> {
    if args == [] then [] else args[1..]
  }

  /** The characters in front of the first NUL. */
  function CString(s: string): string {
    if s == [] || s[0] == '\0' then [] else [s[0]] + CString(s[1..])
  }

  function SignedInt(w: nat): int {
    var v := w % 0x1_0000_0000;
    if v >= 0x8000_0000 then v - 0x1_0000_0000 else v
  }

  function SignExtend(v: nat, half: nat): (r: nat)
    requires v < 2 * half && 0 < 2 * half <= TWO64
    ensures r < TWO64
  {
    if v >= half then TWO64 - 2 * half + v else v
  }

  /** `*fmt`, with the NUL that ends the format. */
  function At(fmt: string, i: nat): char {
    if i < |fmt| then fmt[i] else '\0'
  }

  // ----- Conversion specifications -----

  const NO_FLAGS := Flags(false, false, false, false, false, false, false)

  function IsFlag(c: char): bool {
    c in {'-', '+', ' ', '#', '0'}
  }

  function AddFlag(f: Flags, c: char): Flags {
    match c
    case '-' => f.(left := true)
    case '+' => f.(plus := true)
    case ' ' => f.(space := true)
    case '#' => f.(special := true)
    case _ => f.(zeropad := true)
  }

  function ParseFlags(fmt: string, i: nat, f: Flags): (r: (Flags, nat))
    requires i <= |fmt|
    ensures i <= r.1 <= |fmt|
    decreases |fmt| - i
  {
    if i < |fmt| && IsFlag(fmt[i]) then ParseFlags(fmt, i + 1, AddFlag(f, fmt[i])) else (f, i)
  }

  lemma {:induction false} SkipAtoiBound(s: string, i: nat, acc: nat)
    requires i <= |s|
    ensures i <= SkipAtoi(s, i, acc).1 <= |s|
    decreases |s| - i
  {
    if i < |s| && IsDigit(s[i]) {
      SkipAtoiBound(s, i + 1, acc * 10 + DigitValue(s[i]));
    }
  }

  /** The state of the scan: flags, width and precision so far, position, arguments left. */
  datatype Scan = Scan(f: Flags, width: int, precision: int, i: nat, args: seq<Arg>)

  function ParseWidth(fmt: string, s: Scan): (r: Scan)
    requires s.i <= |fmt|
    ensures s.i <= r.i <= |fmt|
  {
    if IsDigit(At(fmt, s.i)) then
      SkipAtoiBound(fmt, s.i, 0);
      var (w, i) := SkipAtoi(fmt, s.i, 0);
      s.(width := w, i := i)
    else if At(fmt, s.i) == '*' then
      var w := SignedInt(NextWord(s.args));
      if w < 0 then s.(width := -w, f := s.f.(left := true), i := s.i + 1, args := Rest(s.args))
      else s.(width := w, i := s.i + 1, args := Rest(s.args))
    else s.(width := -1)
  }

  function ParsePrecision(fmt: string, s: Scan): (r: Scan)
    requires s.i <= |fmt|
    ensures s.i <= r.i <= |fmt|
  {
    if At(fmt, s.i) != '.' then s.(precision := -1)
    else if IsDigit(At(fmt, s.i + 1)) then
      SkipAtoiBound(fmt, s.i + 1, 0);
      var (p, i) := SkipAtoi(fmt, s.i + 1, 0);
      s.(precision := p, i := i)
    else if At(fmt, s.i + 1) == '*' then
      s.(precision := Max(SignedInt(NextWord(s.args)), 0), i := s.i + 2, args := Rest(s.args))
    else s.(precision := 0, i := s.i + 1)
  }

  /** The qualifier: 'L' also stands for "ll", and NUL for none. */
  function ParseQualifier(fmt: string, i: nat): (r: (char, nat))
    requires i <= |fmt|
    ensures i <= r.1 <= |fmt|
  {
    var c := At(fmt, i);
    if c !in {'h', 'l', 'L', 'Z', 'z', 't'} then ('\0', i)
    else if c == 'l' && At(fmt, i + 1) == 'l' then ('L', i + 2)
    else (c, i + 1)
  }

  /** The argument of an integer conversion, widened to 64 bits as C does. */
  function IntegerArg(qual: char, sign: bool, w: nat): (num: nat)
    ensures num < TWO64
  {
    if qual in {'L', 'l', 'Z', 'z', 't'} then w % TWO64
    else if qual == 'h' then (if sign then SignExtend(w % 0x1_0000, 0x8000) else w % 0x1_0000)
    else (if sign then SignExtend(w % 0x1_0000_0000, 0x8000_0000) else w % 0x1_0000_0000)
  }

  // ----- The text of one conversion -----

  function Take(s: string, precision: int): string {
    if 0 <= precision < |s| then s[..precision] else s
  }

  /** `text` in a field of the given width. */
  function Field(text: string, width: int, left: bool): string {
    if left then text + Rep(' ', width - |text|) else Rep(' ', width - |text|) + text
  }

  predicate IsNumeric(c: char) {
    c in {'o', 'X', 'x', 'd', 'i', 'u'}
  }

  function Base(c: char): nat {
    if c == 'o' then 8 else if c == 'X' || c == 'x' then 16 else 10
  }

  function NumericFlags(c: char, f: Flags): Flags {
    f.(sign := f.sign || c == 'd' || c == 'i', large := f.large || c == 'X')
  }

  /** Text, arguments left, and where the scan goes on; `%n` prints nothing. */
  function Convert(fmt: string, s: Scan, qual: char): (r: (string, seq<Arg>, nat))
    requires s.i <= |fmt|
    ensures s.i <= r.2 <= |fmt|
  {
    var c, w := At(fmt, s.i), NextWord(s.args);
    if c == 'c' then (Field([(w % 256) as char], s.width, s.f.left), Rest(s.args), s.i + 1)
    else if c == 's' then (Field(Take(NextString(s.args), s.precision), s.width, s.f.left), Rest(s.args), s.i + 1)
    else if c == 'p' then
      var f := if s.width == -1 then s.f.(zeropad := true) else s.f;
      var width := if s.width == -1 then 2 * POINTER_BYTES else s.width;
      (NumberText(w % TWO64, 16, width, s.precision, f), Rest(s.args), s.i + 1)
    else if c == 'n' then ("", Rest(s.args), s.i + 1)
    else if c == '%' then ("%", s.args, s.i + 1)
    else if IsNumeric(c) then
      var f := NumericFlags(c, s.f);
      (NumberText(IntegerArg(qual, f.sign, w), Base(c), s.width, s.precision, f), Rest(s.args), s.i + 1)
    else if c == '\0' then ("%", s.args, s.i)
    else (['%', c], s.args, s.i + 1)
  }

  function Directive(fmt: string, i: nat, args: seq<Arg>): (r: (string, seq<Arg>, nat))
    requires i < |fmt|
    ensures i < r.2 <= |fmt|
  {
    var (f, j) := ParseFlags(fmt, i + 1, NO_FLAGS);
    var s := ParsePrecision(fmt, ParseWidth(fmt, Scan(f, -1, -1, j, args)));
    var (qual, k) := ParseQualifier(fmt, s.i);
    Convert(fmt, s.(i := k), qual)
  }

  /** The unbounded output. */
  function Format(fmt: string, i: nat, args: seq<Arg>): string
    requires i <= |fmt|
    decreases |fmt| - i
  {
    if At(fmt, i) == '\0' then ""
    else if fmt[i] != '%' then [fmt[i]] + Format(fmt, i + 1, args)
    else
      var (text, args', j) := Directive(fmt, i, args);
      text + Format(fmt, j, args')
  }

  // ----- The bounded cursor -----

  /** What the buffer holds after `out` went through the cursor: its first `size`
      characters as far as they go, and behind them what was there before. */
  ghost predicate Holds(buf: array<char>, before: seq<char>, size: nat, out: string)
    reads buf
  {
    && |before| == buf.Length && (size <= buf.Length || |out| <= buf.Length)
    && forall k | 0 <= k < buf.Length :: buf[k] == if k < size && k < |out| then out[k] else before[k]
  }

  lemma LastDigit(d: string, i: nat, n: nat, base: nat, large: bool)
    requires 2 <= base <= 36 && i <= |d| && n > 0 && d[..|d| - i] == Digits(n, base, large)
    ensures i < |d| && d[|d| - 1 - i] == DigitChar(n % base, large)
    ensures n / base < n
    ensures if n / base == 0 then i + 1 == |d| else d[..|d| - (i + 1)] == Digits(n / base, base, large)
  {
    DivideByBase(n, base);
    DigitsStep(n, base, large);
    var front := d[..|d| - i];
    assert front[|front| - 1] == d[|d| - 1 - i];
    assert front[..|front| - 1] == d[..|d| - (i + 1)];
  }

  lemma DigitsStep(n: nat, base: nat, large: bool)
    requires 2 <= base <= 36
    ensures var d := Digits(n, base, large);
            && d[|d| - 1] == DigitChar(n % base, large)
            && (if n / base == 0 then |d| == 1 else d[..|d| - 1] == Digits(n / base, base, large))
  {
    DivideByBase(n, base);
  }

  /** What `number` writes up to its digits... */
  function Front(sign: string, base: nat, pad: int, f: Flags): string {
    (if f.zeropad || f.left then "" else Rep(' ', pad)) + sign + Prefix(base, f)
    + (if f.zeropad && !f.left then Rep('0', pad) else "")
  }

  /** ...and from there on. */
  function Back(zeros: int, digits: string, pad: int, f: Flags): string {
    Rep('0', zeros) + digits + (if f.left then Rep(' ', pad) else "")
  }

  /** The pieces `number` writes, in their order, are the text. */
  lemma Arranged(num: nat, base: nat, size: int, f: Flags, precision: int, prec: nat, pad: int, digits: string)
    requires num < TWO64 && 2 <= base <= 36 && digits == Digits(Magnitude(num, f), base, f.large)
    requires prec == Max(precision, |digits|) && pad == size - |SignText(num, f)| - |Prefix(base, f)| - prec
    ensures NumberText(num, base, size, precision, f)
         == Front(SignText(num, f), base, pad, f) + Back(prec - |digits|, digits, pad, f)
  {
    var sign, prefix, zeros := SignText(num, f), Prefix(base, f), Rep('0', precision - |digits|);
    assert Rep('0', prec - |digits|) == zeros;
    assert size - |sign| - |prefix| - |zeros| - |digits| == pad;
    LaidOut(sign, base, zeros, digits, size, precision, f, pad);
  }

  lemma LaidOut(
    sign: string, base: nat, zeros: string, digits: string, size: int, precision: int, f: Flags, pad: int)
    requires zeros == Rep('0', precision - |digits|)
    requires pad == size - |sign| - |Prefix(base, f)| - |zeros| - |digits|
    ensures Layout(sign, Prefix(base, f), digits, size, precision, f)
         == Front(sign, base, pad, f) + (zeros + digits + (if f.left then Rep(' ', pad) else ""))
  {
    var prefix := Prefix(base, f);
    if f.left {
      ArrangedLeft(sign, prefix, zeros, digits, Rep(' ', pad));
    } else if f.zeropad {
      ArrangedRight("", sign, prefix, Rep('0', pad), zeros, digits);
    } else {
      ArrangedRight(Rep(' ', pad), sign, prefix, "", zeros, digits);
    }
  }

  lemma ArrangedLeft(sign: string, prefix: string, zeros: string, digits: string, tail: string)
    ensures sign + prefix + zeros + digits + tail == ("" + sign + prefix + "") + (zeros + digits + tail)
  {
  }

  lemma ArrangedRight(lead: string, sign: string, prefix: string, mid: string, zeros: string, digits: string)
    ensures lead + sign + prefix + mid + zeros + digits == (lead + sign + prefix + mid) + (zeros + digits + "")
    ensures lead == "" ==> lead + sign == sign
    ensures mid == "" ==> lead + sign + prefix + mid == lead + sign + prefix
  {
  }

  lemma Assoc(a: string, b: string, c: string)
    ensures a + b + c == a + (b + c)
  {
  }

  class Cursor {
    const buf: array<char>
    const size: nat
    var str: nat
    ghost const before: seq<char>
    ghost var out: string

    ghost predicate Valid()
      reads this, buf
    {
      str == |out| && Holds(buf, before, size, out)
    }

    /** The next `n` characters have a place in the buffer as far as they are stored: the
        caller may give a size larger than the buffer when it knows that the output fits. */
    ghost predicate Room(n: int)
      reads `out
    {
      size <= buf.Length || |out| + n <= buf.Length
    }

    constructor (buf: array<char>, size: nat)
      ensures Valid() && this.buf == buf && this.size == size && before == buf[..] && out == "" && str == 0
    {
      this.buf, this.size, this.before := buf, size, buf[..];
      str, out := 0, "";
    }

    method Put(c: char)
      requires Valid() && Room(1)
      modifies this, buf
      ensures Valid() && out == old(out) + [c]
    {
      if str < size {
        buf[str] := c;
      }
      str := str + 1;
      out := out + [c];
    }

    /** `while (n-- > 0)` storing `c`; the counter comes back as the loop leaves it. */
    method Pad(c: char, n: int) returns (n': int)
      requires Valid() && Room(Max(n, 0))
      modifies this, buf
      ensures Valid() && out == old(out) + Rep(c, n)
      ensures n' == if n > 0 then -1 else n - 1
    {
      n' := n;
      while n' > 0
        invariant Valid() && n' <= n && (n >= 0 ==> n' >= 0) && (n < 0 ==> n' == n)
        invariant out == old(out) + Rep(c, n - n') && Room(Max(n', 0))
      {
        Put(c);
        n' := n' - 1;
        assert Rep(c, n - n') == Rep(c, n - n' - 1) + [c];
      }
      n' := n' - 1;
    }

    method PutAll(s: string)
      requires Valid() && Room(|s|)
      modifies this, buf
      ensures Valid() && out == old(out) + s
    {
      var i := 0;
      while i < |s|
        invariant Valid() && 0 <= i <= |s| && out == old(out) + s[..i] && Room(|s| - i)
      {
        Put(s[i]);
        i := i + 1;
      }
    }

    // ----- number -----

    /** `do_div`: quotient and remainder in one. */
    static method DoDiv(n: nat, base: nat) returns (q: nat, r: nat)
      requires 2 <= base
      ensures q == n / base && r == n % base < base
    {
      DivideByBase(n, base);
      q, r := n / base, n % base;
    }

    /** Digits into `tmp`, last digit first; 66 characters are always enough. */
    method Convert66(num: nat, base: nat, large: bool) returns (tmp: array<char>, i: nat)
      requires num < TWO64 && 2 <= base <= 36
      ensures fresh(tmp) && tmp.Length == 66 && i == |Digits(num, base, large)| <= 64
      ensures forall k | 0 <= k < i :: tmp[k] == Digits(num, base, large)[i - 1 - k]
    {
      tmp := new char[66];
      i := 0;
      ghost var d := Digits(num, base, large);
      Pow64();
      DigitsBound(num, base, large, 64);
      if num == 0 {
        tmp[i] := '0';
        i := i + 1;
      } else {
        var n: nat := num;
        assert d[..|d|] == d;
        while n != 0
          invariant i <= |d| <= 64
          invariant if n == 0 then i == |d| else d[..|d| - i] == Digits(n, base, large)
          invariant forall k | 0 <= k < i :: tmp[k] == d[|d| - 1 - k]
          decreases n
        {
          LastDigit(d, i, n, base, large);
          var r;
          n, r := DoDiv(n, base);
          tmp[i] := DigitChar(r, large);
          i := i + 1;
        }
      }
    }

    /** The sign character, what is left to print, and the width left for it. */
    method SplitSign(num: nat, size: int, f: Flags) returns (sign: string, mag: nat, sz: int)
      requires num < TWO64
      ensures sign == SignText(num, f) && mag == Magnitude(num, f) && sz == size - |sign|
    {
      sign, mag, sz := "", num, size;
      if f.sign {
        if num >= TWO63 {
          sign, mag, sz := "-", TWO64 - num, sz - 1;
        } else if f.plus {
          sign, sz := "+", sz - 1;
        } else if f.space {
          sign, sz := " ", sz - 1;
        }
      }
    }

    method PutPrefix(base: nat, f: Flags)
      requires Valid() && Room(|Prefix(base, f)|)
      modifies this, buf
      ensures Valid() && out == old(out) + Prefix(base, f)
    {
      if f.special {
        if base == 8 {
          Put('0');
        } else if base == 16 {
          Put('0');
          Put(DigitChar(33, f.large));
        }
      }
    }

    /** `number`. False stands for its NULL on a base out of range. */
    method Number(num: nat, base: nat, size: int, precision: int, f: Flags) returns (ok: bool)
      requires Valid() && num < TWO64
      requires 2 <= base <= 36 ==> Room(|NumberText(num, base, size, precision, f)|)
      modifies this, buf
      ensures Valid() && ok == (2 <= base <= 36)
      ensures out == if ok then old(out) + NumberText(num, base, size, precision, f) else old(out)
    {
      if base < 2 || base > 36 {
        return false;
      }
      ok := true;
      var sign, mag, sz := SplitSign(num, size, f);
      sz := sz - PrefixWidth(base, f);
      var tmp, i := Convert66(mag, base, f.large);
      var prec := if i > precision then i else precision;
      ghost var d := Digits(mag, base, f.large);
      Arranged(num, base, size, f, precision, prec, sz - prec, d);
      PutPieces(sign, tmp, i, prec - i, base, sz - prec, f, d);
    }

    /** What a prefix takes from the field. */
    static function PrefixWidth(base: nat, f: Flags): (n: nat)
      ensures n == |Prefix(base, f)|
    {
      if f.special && base == 16 then 2 else if f.special && base == 8 then 1 else 0
    }

    method PutPieces(sign: string, tmp: array<char>, i: nat, zeros: int, base: nat, pad: int, f: Flags, ghost d: string)
      requires Valid() && |sign| <= 1 && tmp != buf && i <= tmp.Length && i == |d|
      requires forall k | 0 <= k < i :: tmp[k] == d[i - 1 - k]
      requires Room(|Front(sign, base, pad, f) + Back(zeros, d, pad, f)|)
      modifies this, buf
      ensures Valid() && out == old(out) + (Front(sign, base, pad, f) + Back(zeros, d, pad, f))
    {
      ghost var start := out;
      var sz := PutFront(sign, base, pad, f);
      PutBack(tmp, i, zeros, sz, pad, f, d);
      Assoc(start, Front(sign, base, pad, f), Back(zeros, d, pad, f));
    }

    /** Blanks, sign, prefix, and blanks or zeros; what is left of the padding comes back. */
    method PutFront(sign: string, base: nat, pad: int, f: Flags) returns (sz: int)
      requires Valid() && |sign| <= 1 && Room(|Front(sign, base, pad, f)|)
      modifies this, buf
      ensures Valid() && out == old(out) + Front(sign, base, pad, f)
      ensures if f.left then sz == pad else sz < 0
    {
      ghost var start := out;
      var zeropad := f.zeropad && !f.left;
      sz := pad;
      if !zeropad && !f.left {
        sz := Pad(' ', sz);
      }
      ghost var lead := if f.zeropad || f.left then "" else Rep(' ', pad);
      assert out == start + lead;
      if sign != "" {
        Put(sign[0]);
        assert sign == [sign[0]];
      }
      assert out == start + (lead + sign);
      PutPrefix(base, f);
      Assoc(start, lead + sign, Prefix(base, f));
      if !f.left {
        ghost var fill := if zeropad then Rep('0', pad) else "";
        sz := Pad(if zeropad then '0' else ' ', sz);
        Assoc(start, lead + sign + Prefix(base, f), fill);
      }
    }

    /** Zeros, digits and trailing blanks. */
    method PutBack(tmp: array<char>, i: nat, zeros: int, sz: int, ghost pad: int, ghost f: Flags, ghost d: string)
      requires Valid() && tmp != buf && i <= tmp.Length && i == |d|
      requires forall k | 0 <= k < i :: tmp[k] == d[i - 1 - k]
      requires Room(|Back(zeros, d, pad, f)|) && if f.left then sz == pad else sz < 0
      modifies this, buf
      ensures Valid() && out == old(out) + Back(zeros, d, pad, f)
    {
      ghost var start, nulls, tail := out, Rep('0', zeros), Rep(' ', sz);
      assert Back(zeros, d, pad, f) == nulls + d + tail;
      var _ := Pad('0', zeros);
      PutReversed(tmp, i, d);
      Assoc(start, nulls, d);
      var _ := Pad(' ', sz);
      Assoc(start, nulls + d, tail);
    }

    /** `while (i-- > 0)` over the digits. */
    method PutReversed(tmp: array<char>, n: nat, ghost d: string)
      requires Valid() && tmp != buf && n <= tmp.Length && n == |d| && Room(n)
      requires forall k | 0 <= k < n :: tmp[k] == d[n - 1 - k]
      modifies this, buf
      ensures Valid() && out == old(out) + d
    {
      var i := n;
      while i > 0
        invariant Valid() && 0 <= i <= n && out == old(out) + d[..n - i] && Room(i)
        invariant forall k | 0 <= k < n :: tmp[k] == d[n - 1 - k]
      {
        i := i - 1;
        Put(tmp[i]);
        assert d[..n - i] == d[..n - i - 1] + [d[n - i - 1]];
      }
    }

    // ----- The scan of one directive -----

    /** The flag characters behind `%`. */
    static method ScanFlags(fmt: string, i: nat) returns (f: Flags, j: nat)
      requires i <= |fmt|
      ensures (f, j) == ParseFlags(fmt, i, NO_FLAGS)
    {
      f, j := NO_FLAGS, i;
      while j < |fmt| && IsFlag(fmt[j])
        invariant i <= j <= |fmt| && ParseFlags(fmt, j, f) == ParseFlags(fmt, i, NO_FLAGS)
        decreases |fmt| - j
      {
        f := AddFlag(f, fmt[j]);
        j := j + 1;
      }
    }

    /** `skip_atoi`. */
    static method ScanAtoi(fmt: string, i: nat) returns (n: nat, j: nat)
      requires i <= |fmt|
      ensures (n, j) == SkipAtoi(fmt, i, 0)
    {
      n, j := 0, i;
      while IsDigit(At(fmt, j))
        invariant i <= j <= |fmt| && SkipAtoi(fmt, j, n) == SkipAtoi(fmt, i, 0)
        decreases |fmt| - j
      {
        n := n * 10 + (fmt[j] as int - '0' as int);
        j := j + 1;
      }
    }

    static method ScanWidth(fmt: string, s: Scan) returns (r: Scan)
      requires s.i <= |fmt| && s.width == -1
      ensures r == ParseWidth(fmt, s)
    {
      r := s;
      if IsDigit(At(fmt, s.i)) {
        var w, k := ScanAtoi(fmt, s.i);
        r := r.(width := w, i := k);
      } else if At(fmt, s.i) == '*' {
        r := r.(width := SignedInt(NextWord(s.args)), i := s.i + 1, args := Rest(s.args));
        if r.width < 0 {
          r := r.(width := -r.width, f := r.f.(left := true));
        }
      }
    }

    static method ScanPrecision(fmt: string, s: Scan) returns (r: Scan)
      requires s.i <= |fmt| && s.precision == -1
      ensures r == ParsePrecision(fmt, s)
    {
      r := s;
      if At(fmt, s.i) == '.' {
        r := r.(i := s.i + 1);
        if IsDigit(At(fmt, r.i)) {
          var p, k := ScanAtoi(fmt, r.i);
          r := r.(precision := p, i := k);
        } else if At(fmt, r.i) == '*' {
          r := r.(precision := SignedInt(NextWord(r.args)), i := r.i + 1, args := Rest(r.args));
        }
        if r.precision < 0 {
          r := r.(precision := 0);
        }
      }
    }

    /** Width, precision and qualifier, in that order. */
    static method ScanSpec(fmt: string, i: nat, args: seq<Arg>) returns (s: Scan, qual: char)
      requires i <= |fmt|
      ensures var (f, j) := ParseFlags(fmt, i, NO_FLAGS);
              var p := ParsePrecision(fmt, ParseWidth(fmt, Scan(f, -1, -1, j, args)));
              var (q, k) := ParseQualifier(fmt, p.i);
              s == p.(i := k) && qual == q
    {
      var f, j := ScanFlags(fmt, i);
      s := ScanWidth(fmt, Scan(f, -1, -1, j, args));
      s := ScanPrecision(fmt, s);
      qual := '\0';
      if At(fmt, s.i) in {'h', 'l', 'L', 'Z', 'z', 't'} {
        qual := At(fmt, s.i);
        s := s.(i := s.i + 1);
        if qual == 'l' && At(fmt, s.i) == 'l' {
          qual := 'L';
          s := s.(i := s.i + 1);
        }
      }
    }

    /** Text in a field: blanks in front unless left-justified, then behind. */
    method PutField(text: string, width: int, left: bool)
      requires Valid() && Room(|Field(text, width, left)|)
      modifies this, buf
      ensures Valid() && out == old(out) + Field(text, width, left)
    {
      ghost var start := out;
      var w := width - |text|;
      if !left {
        w := Pad(' ', w);
      }
      PutAll(text);
      ghost var tail := Rep(' ', w);
      var _ := Pad(' ', w);
      if left {
        Assoc(start, text, tail);
      } else {
        assert tail == "";
        Assoc(start, Rep(' ', width - |text|), text);
      }
    }

    /** The switch over the conversion character. */
    method DoConvert(fmt: string, s: Scan, qual: char) returns (args: seq<Arg>, j: nat)
      requires Valid() && s.i <= |fmt| && Room(|Convert(fmt, s, qual).0|)
      modifies this, buf
      ensures Valid()
      ensures var r := Convert(fmt, s, qual); out == old(out) + r.0 && args == r.1 && j == r.2
    {
      var c := At(fmt, s.i);
      var w := NextWord(s.args);
      args, j := Rest(s.args), s.i + 1;
      if c == 'c' {
        PutField([(w % 256) as char], s.width, s.f.left);
      } else if c == 's' {
        PutField(Take(NextString(s.args), s.precision), s.width, s.f.left);
      } else if c == 'p' {
        if s.width == -1 {
          var _ := Number(w % TWO64, 16, 2 * POINTER_BYTES, s.precision, s.f.(zeropad := true));
        } else {
          var _ := Number(w % TWO64, 16, s.width, s.precision, s.f);
        }
      } else if c == 'n' {
        assert out + "" == out;
      } else if IsNumeric(c) {
        var f := NumericFlags(c, s.f);
        var _ := Number(IntegerArg(qual, f.sign, w), Base(c), s.width, s.precision, f);
      } else {
        args := s.args;
        Put('%');
        if c == '\0' {
          j := s.i;
        } else if c != '%' {
          Put(c);
        }
      }
    }

    /** One character or one directive of the format. */
    method FormatStep(fmt: string, i: nat, args: seq<Arg>) returns (j: nat, rest: seq<Arg>)
      requires Valid() && i < |fmt| && At(fmt, i) != '\0' && Room(|Format(fmt, i, args)|)
      modifies this, buf
      ensures Valid() && i < j <= |fmt|
      ensures out + Format(fmt, j, rest) == old(out) + Format(fmt, i, args)
    {
      ghost var before := out;
      if fmt[i] != '%' {
        Put(fmt[i]);
        j, rest := i + 1, args;
        Assoc(before, [fmt[i]], Format(fmt, j, rest));
      } else {
        ghost var step := Directive(fmt, i, args);
        var s, qual := ScanSpec(fmt, i + 1, args);
        rest, j := DoConvert(fmt, s, qual);
        Assoc(before, step.0, Format(fmt, j, rest));
      }
    }
  }

  // ----- vsnprintf -----

  /** How many of `len` characters fit in front of the NUL. */
  function Kept(len: nat, size: nat): nat {
    if size == 0 then 0 else if len < size then len else size - 1
  }

  /** `(int) size < 0`. */
  predicate NegativeAsInt(size: nat) {
    size % 0x1_0000_0000 >= 0x8000_0000
  }

  /** The returned length is that of the unbounded output, whatever the size. The
      buffer holds as much of it as leaves room for a NUL, then the NUL; nothing
      else is written, and nothing at all when the size is 0. A size larger than the
      buffer does no harm as long as the output and its NUL fit. */
  method Vsnprintf(buf: array<char>, size: nat, fmt: string, args: seq<Arg>) returns (len: nat)
    requires !NegativeAsInt(size) && size > 0 ==> Kept(|Format(fmt, 0, args)|, size) < buf.Length
    modifies buf
    ensures NegativeAsInt(size) ==> len == 0 && buf[..] == old(buf[..])
    ensures !NegativeAsInt(size) ==> len == |Format(fmt, 0, args)|
    ensures !NegativeAsInt(size) ==> forall k | 0 <= k < buf.Length ::
              var kept := Kept(len, size);
              buf[k] == if k < kept then Format(fmt, 0, args)[k]
                        else if k == kept && size > 0 then '\0' else old(buf[k])
  {
    if NegativeAsInt(size) {
      return 0;
    }
    var cursor := new Cursor(buf, size);
    var i, rest := 0, args;
    while At(fmt, i) != '\0'
      invariant 0 <= i <= |fmt| && cursor.Valid() && fresh(cursor) && cursor.buf == buf && cursor.size == size
      invariant cursor.before == old(buf[..])
      invariant cursor.out + Format(fmt, i, rest) == Format(fmt, 0, args)
      invariant cursor.Room(|Format(fmt, i, rest)|)
      decreases |fmt| - i
    {
      i, rest := cursor.FormatStep(fmt, i, rest);
    }
    assert cursor.out + "" == cursor.out;
    len := cursor.str;
    if size > 0 {
      if cursor.str < size {
        buf[cursor.str] := '\0';
      } else {
        buf[size - 1] := '\0';
      }
    }
  }

  /** `%d` with any flags, width and precision: the text reads back as the int. */
  lemma PrintedIntReadsBack(s: Scan, w: nat)
    requires s.i == 0 && s.args == [Word(w)]
    ensures ReadNumber(Convert("d", s, '\0').0) == SignedInt(w)
  {
    IntConverts(s, w);
    DecimalRoundTrip(IntegerArg('\0', true, w), s.width, s.precision, NumericFlags('d', s.f));
  }

  lemma IntConverts(s: Scan, w: nat)
    requires s.i == 0 && s.args == [Word(w)]
    ensures var f, num := NumericFlags('d', s.f), IntegerArg('\0', true, w);
            Convert("d", s, '\0').0 == NumberText(num, 10, s.width, s.precision, f) && Denotes(num, f) == SignedInt(w)
  {
    assert At("d", 0) == 'd';
  }
}
