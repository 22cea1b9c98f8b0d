/** What a conversion specification of alsa/acore/memory_wrapper.c prints, from its own
    characters: flags, width, precision, qualifier and conversion letter. */
module FormatLaws {
  import opened NumberFormat
  import opened Vsnprintf

  // ----- Conversion specifications as text -----

  /** A width, or a precision behind its dot: not given, in digits, or `*`. */
  datatype Count = Absent | Given(n: nat) | Star

  datatype Precision = NoDot | Dot(count: Count)

  datatype Spec = Spec(flags: string, width: Count, precision: Precision, qual: string, conv: char)

  function CountText(c: Count): string {
    match c
    case Absent => ""
    case Given(n) => Digits(n, 10, false)
    case Star => "*"
  }

  function PrecisionText(p: Precision): string {
    match p
    case NoDot => ""
    case Dot(c) => "." + CountText(c)
  }

  /** The text behind the flags. */
  function Tail(d: Spec): string {
    CountText(d.width) + (PrecisionText(d.precision) + (d.qual + [d.conv]))
  }

  function Text(d: Spec): string {
    "%" + (d.flags + Tail(d))
  }

  /** A width in digits does not begin with a 0, which would be a flag. */
  predicate IsSpec(d: Spec) {
    && (forall i | 0 <= i < |d.flags| :: d.flags[i] in "-+ #0")
    && d.width != Given(0)
    && d.qual in ["", "h", "l", "ll", "L", "Z", "z", "t"]
    && d.conv in "diouxXpsc"
  }

  // ----- The values that width and precision take -----

  /** The first argument as an int, and as a word. */
  function FirstWord(args: seq<Arg>): nat {
    if args != [] && args[0].Word? then args[0].w else 0
  }

  /** A word of `m` values, read as two's complement. */
  function Signed(w: nat, m: nat): int
    requires m > 0
  {
    if 2 * (w % m) >= m then w % m - m else w % m
  }

  const INT: nat := 0x1_0000_0000

  function Behind(args: seq<Arg>, c: Count): seq<Arg> {
    if c.Star? && args != [] then args[1..] else args
  }

  function CountValue(c: Count, args: seq<Arg>): int {
    match c
    case Absent => -1
    case Given(n) => n
    case Star => Signed(FirstWord(args), INT)
  }

  /** The field width: a negative one from an argument counts without its sign. */
  function Width(d: Spec, args: seq<Arg>): int {
    var v := CountValue(d.width, args);
    if d.width.Star? && v < 0 then -v else v
  }

  /** The field is filled up behind the text: `-` is among the flags, or the width was negative. */
  predicate ToTheLeft(d: Spec, args: seq<Arg>) {
    '-' in d.flags || (d.width.Star? && CountValue(d.width, args) < 0)
  }

  /** The precision, -1 when there is no dot. */
  function PrecisionValue(d: Spec, args: seq<Arg>): int {
    match d.precision
    case NoDot => -1
    case Dot(c) =>
      var v := CountValue(c, Behind(args, d.width));
      if v < 0 then 0 else v
  }

  /** The arguments left for the conversion itself. */
  function ValueArgs(d: Spec, args: seq<Arg>): seq<Arg> {
    var a := Behind(args, d.width);
    if d.precision.Dot? then Behind(a, d.precision.count) else a
  }

  /** How many values an integer has under the qualifier. */
  function Modulus(qual: string): nat {
    if qual == "" then INT else if qual == "h" then 0x1_0000 else 0x1_0000_0000_0000_0000
  }

  // ----- Scanning -----

  function FlagsOf(fl: string): Flags {
    Flags('0' in fl, false, '+' in fl, ' ' in fl, '-' in fl, '#' in fl, false)
  }

  function BothFlags(f: Flags, g: Flags): Flags {
    Flags(f.zeropad || g.zeropad, f.sign || g.sign, f.plus || g.plus, f.space || g.space, f.left || g.left,
          f.special || g.special, f.large || g.large)
  }

  lemma {:induction false} FlagsRead(front: string, fl: string, back: string, f: Flags)
    requires forall i | 0 <= i < |fl| :: fl[i] in "-+ #0"
    requires back == [] || back[0] !in "-+ #0"
    ensures ParseFlags(front + (fl + back), |front|, f) == (BothFlags(f, FlagsOf(fl)), |front| + |fl|)
    decreases |fl|
  {
    var fmt := front + (fl + back);
    if fl == [] {
      assert |front| < |fmt| ==> fmt[|front|] == back[0];
    } else {
      assert fmt[|front|] == fl[0] && IsFlag(fl[0]);
      assert fmt == (front + [fl[0]]) + (fl[1..] + back);
      FlagsRead(front + [fl[0]], fl[1..], back, AddFlag(f, fl[0]));
      FlagsStep(f, fl);
    }
  }

  lemma FlagsStep(f: Flags, fl: string)
    requires fl != [] && IsFlag(fl[0])
    ensures BothFlags(AddFlag(f, fl[0]), FlagsOf(fl[1..])) == BothFlags(f, FlagsOf(fl))
  {
    OneFlag(f, fl[0]);
    InStep(fl, '0');
    InStep(fl, '+');
    InStep(fl, ' ');
    InStep(fl, '-');
    InStep(fl, '#');
  }

  lemma OneFlag(f: Flags, c: char)
    requires IsFlag(c)
    ensures AddFlag(f, c) == BothFlags(f, Flags(c == '0', false, c == '+', c == ' ', c == '-', c == '#', false))
  {
  }

  lemma InStep(s: string, c: char)
    requires s != []
    ensures c in s <==> c == s[0] || c in s[1..]
  {
    assert s == [s[0]] + s[1..];
  }

  lemma CountDigits(n: nat)
    ensures var d := Digits(n, 10, false); AllDigits(d) && ValueOf(d, 10) == n && d != []
  {
    DecimalDigits(n, false);
    DigitsValue(n, 10, false);
  }

  /** Digits in the format are read as the number they are. */
  lemma AtoiReads(front: string, n: nat, back: string)
    requires back == [] || !IsDigit(back[0])
    ensures var d := Digits(n, 10, false);
            && SkipAtoi(front + (d + back), |front|, 0) == (n, |front| + |d|)
            && IsDigit(At(front + (d + back), |front|))
  {
    CountDigits(n);
    DigitsRead(front, Digits(n, 10, false), back);
  }

  lemma DigitsRead(front: string, d: string, back: string)
    requires AllDigits(d) && d != [] && (back == [] || !IsDigit(back[0]))
    ensures SkipAtoi(front + (d + back), |front|, 0) == (ValueOf(d, 10), |front| + |d|)
    ensures IsDigit(At(front + (d + back), |front|))
  {
    SkipAtoiReads(front, d, back, 0);
    assert front + d + back == front + (d + back);
    assert (front + (d + back))[|front|] == d[0];
  }

  lemma WidthRead(front: string, d: Spec, back: string, s: Scan)
    requires d.width != Given(0) && s.i == |front| && s.width == -1
    requires back != [] && !IsDigit(back[0]) && back[0] != '*'
    ensures var r := ParseWidth(front + (CountText(d.width) + back), s);
            && r == s.(width := Width(d, s.args), i := |front| + |CountText(d.width)|, args := Behind(s.args, d.width),
                       f := s.f.(left := s.f.left || (d.width.Star? && CountValue(d.width, s.args) < 0)))
  {
    var fmt := front + (CountText(d.width) + back);
    match d.width
    case Absent => assert fmt[|front|] == back[0];
    case Given(n) => AtoiReads(front, n, back);
    case Star => assert fmt[|front|] == '*';
  }

  lemma PrecisionRead(front: string, d: Spec, back: string, s: Scan, args: seq<Arg>)
    requires s.i == |front| && s.precision == -1 && s.args == Behind(args, d.width)
    requires back != [] && !IsDigit(back[0]) && back[0] != '*' && back[0] != '.'
    ensures var r := ParsePrecision(front + (PrecisionText(d.precision) + back), s);
            && r == s.(precision := PrecisionValue(d, args), i := |front| + |PrecisionText(d.precision)|,
                       args := ValueArgs(d, args))
  {
    var fmt := front + (PrecisionText(d.precision) + back);
    if d.precision.NoDot? {
      assert fmt[|front|] == back[0];
    } else {
      var c := d.precision.count;
      assert fmt[|front|] == '.';
      assert fmt == (front + ".") + (CountText(c) + back);
      match c
      case Absent => assert fmt[|front| + 1] == back[0];
      case Given(n) => AtoiReads(front + ".", n, back);
      case Star => assert fmt[|front| + 1] == '*';
    }
  }

  /** The qualifier as the scan keeps it: "ll" is 'L'. */
  function QualChar(qual: string): char {
    if qual == "" then '\0' else if qual == "ll" then 'L' else qual[0]
  }

  lemma QualRead(front: string, qual: string, conv: char, rest: string)
    requires qual in ["", "h", "l", "ll", "L", "Z", "z", "t"] && conv in "diouxXpsc"
    ensures ParseQualifier(front + (qual + ([conv] + rest)), |front|) == (QualChar(qual), |front| + |qual|)
  {
    var fmt := front + (qual + ([conv] + rest));
    assert fmt[|front| + |qual|] == conv;
    if qual != "" {
      assert fmt[|front|] == qual[0];
      if qual == "ll" {
        assert fmt[|front| + 1] == qual[1];
      }
    }
  }

  /** What the scan hands to the conversion. */
  function Scanned(d: Spec, args: seq<Arg>): Scan {
    Scan(FlagsOf(d.flags).(left := ToTheLeft(d, args)), Width(d, args), PrecisionValue(d, args), |Text(d)| - 1,
         ValueArgs(d, args))
  }

  lemma TailStarts(d: Spec, rest: string)
    requires IsSpec(d)
    ensures Tail(d)[0] !in "-+ #0"
    ensures var b := PrecisionText(d.precision) + (d.qual + [d.conv]); !IsDigit(b[0]) && b[0] != '*'
    ensures var b := d.qual + [d.conv]; !IsDigit(b[0]) && b[0] != '*' && b[0] != '.'
  {
    if d.width.Given? {
      CountDigits(d.width.n);
      NoLeadingZero(d.width.n, 10, false);
      assert CountText(d.width)[0] == Tail(d)[0];
    }
  }

  lemma {:induction false} NoLeadingZero(n: nat, base: nat, large: bool)
    requires 2 <= base <= 36 && n > 0
    ensures Digits(n, base, large)[0] != '0'
  {
    if n >= base {
      DivideByBase(n, base);
      NoLeadingZero(n / base, base, large);
    }
  }

  /** The parts of the format behind the flags, the width and the precision. */
  lemma Parts(d: Spec, rest: string)
    ensures var fmt, w, p := Text(d) + rest, CountText(d.width), PrecisionText(d.precision);
            var back3 := d.qual + ([d.conv] + rest);
            && fmt == "%" + (d.flags + (w + (p + back3)))
            && fmt == ("%" + d.flags) + (w + (p + back3))
            && fmt == ("%" + d.flags + w) + (p + back3)
            && fmt == ("%" + d.flags + w + p) + back3
  {
    var w, p, q := CountText(d.width), PrecisionText(d.precision), d.qual + [d.conv];
    var back3 := d.qual + ([d.conv] + rest);
    assert back3 == q + rest;
    assert w + (p + back3) == Tail(d) + rest;
  }

  lemma BackStarts(d: Spec, rest: string)
    requires IsSpec(d)
    ensures var back3 := d.qual + ([d.conv] + rest);
            var back2 := PrecisionText(d.precision) + back3;
            && (CountText(d.width) + back2)[0] !in "-+ #0"
            && !IsDigit(back2[0]) && back2[0] != '*'
            && !IsDigit(back3[0]) && back3[0] != '*' && back3[0] != '.'
  {
    TailStarts(d, rest);
    var w, p, q := CountText(d.width), PrecisionText(d.precision), d.qual + [d.conv];
    assert d.qual + ([d.conv] + rest) == q + rest;
    assert p + (q + rest) == (p + q) + rest;
    assert w + ((p + q) + rest) == Tail(d) + rest;
  }

  /** The flags and the width are read... */
  lemma WidthScanned(d: Spec, args: seq<Arg>, rest: string)
    requires IsSpec(d)
    ensures var fmt, j := Text(d) + rest, 1 + |d.flags|;
            && ParseFlags(fmt, 1, NO_FLAGS) == (FlagsOf(d.flags), j)
            && ParseWidth(fmt, Scan(FlagsOf(d.flags), -1, -1, j, args))
            == Scan(FlagsOf(d.flags).(left := ToTheLeft(d, args)), Width(d, args), -1, j + |CountText(d.width)|,
                    Behind(args, d.width))
  {
    var back2 := PrecisionText(d.precision) + (d.qual + ([d.conv] + rest));
    Parts(d, rest);
    BackStarts(d, rest);
    FlagsRead("%", d.flags, CountText(d.width) + back2, NO_FLAGS);
    WidthRead("%" + d.flags, d, back2, Scan(FlagsOf(d.flags), -1, -1, 1 + |d.flags|, args));
  }

  /** ...and then the precision and the qualifier. */
  lemma RestScanned(d: Spec, args: seq<Arg>, rest: string, s: Scan)
    requires IsSpec(d) && s.i == 1 + |d.flags| + |CountText(d.width)| && s.precision == -1
    requires s.args == Behind(args, d.width)
    ensures var fmt, j := Text(d) + rest, s.i + |PrecisionText(d.precision)|;
            && s.i <= |fmt| && j <= |fmt|
            && ParsePrecision(fmt, s) == s.(precision := PrecisionValue(d, args), i := j, args := ValueArgs(d, args))
            && ParseQualifier(fmt, j) == (QualChar(d.qual), |Text(d)| - 1)
  {
    var back3 := d.qual + ([d.conv] + rest);
    var front2 := "%" + d.flags + CountText(d.width);
    Parts(d, rest);
    BackStarts(d, rest);
    PrecisionRead(front2, d, back3, s, args);
    QualRead(front2 + PrecisionText(d.precision), d.qual, d.conv, rest);
  }

  /** Scanning a specification gives its flags, width, precision and qualifier, and the
      arguments that these took are gone. */
  lemma DirectiveReads(d: Spec, args: seq<Arg>, rest: string)
    requires IsSpec(d)
    ensures Directive(Text(d) + rest, 0, args) == Convert(Text(d) + rest, Scanned(d, args), QualChar(d.qual))
    ensures At(Text(d) + rest, |Text(d)| - 1) == d.conv
  {
    WidthScanned(d, args, rest);
    var s := Scan(FlagsOf(d.flags).(left := ToTheLeft(d, args)), Width(d, args), -1,
                  1 + |d.flags| + |CountText(d.width)|, Behind(args, d.width));
    RestScanned(d, args, rest, s);
    ConvAt(d, rest);
    Scans(Text(d) + rest, args, FlagsOf(d.flags), 1 + |d.flags|, s, Scanned(d, args), QualChar(d.qual));
  }

  /** A directive from the steps of its scan. */
  lemma Scans(fmt: string, args: seq<Arg>, f: Flags, j: nat, s: Scan, t: Scan, qual: char)
    requires fmt != [] && j <= |fmt| && ParseFlags(fmt, 1, NO_FLAGS) == (f, j)
    requires ParseWidth(fmt, Scan(f, -1, -1, j, args)) == s && s.i <= |fmt|
    requires var p := ParsePrecision(fmt, s);
             p.i <= |fmt| && t == p.(i := t.i) && ParseQualifier(fmt, p.i) == (qual, t.i)
    ensures t.i <= |fmt| && Directive(fmt, 0, args) == Convert(fmt, t, qual)
  {
  }

  lemma ConvAt(d: Spec, rest: string)
    ensures At(Text(d) + rest, |Text(d)| - 1) == d.conv && (Text(d) + rest)[0] == '%'
  {
    assert Text(d)[|Text(d)| - 1] == d.conv;
  }

  // ----- Numbers -----

  /** A number in its field: blanks, sign, prefix, zeros, digits, blanks. */
  datatype Pieces = Pieces(front: nat, sign: string, prefix: string, zeros: nat, digits: string, back: nat)

  function Joined(p: Pieces): string {
    Rep(' ', p.front) + p.sign + p.prefix + Rep('0', p.zeros) + p.digits + Rep(' ', p.back)
  }

  /** The digits of `value` in `base`, with no zero in front of them, small letters or capitals. */
  predicate Denote(digits: string, value: nat, base: nat, capitals: bool) {
    && ValueOf(digits, base) == value && digits != [] && (digits[0] == '0' ==> digits == "0")
    && forall i | 0 <= i < |digits| ::
         && DigitValue(digits[i]) < base
         && ('0' <= digits[i] <= '9' || (if capitals then 'A' <= digits[i] <= 'Z' else 'a' <= digits[i] <= 'z'))
  }

  /** The pieces fill the field: blanks behind when it is filled to the left, zeros when it is to
      be filled with zeros, and blanks in front else; the precision is filled with zeros always. */
  predicate Fills(p: Pieces, width: int, precision: int, left: bool, zero: bool) {
    var least := if |p.digits| < precision then precision - |p.digits| else 0;
    var bare := |p.sign| + |p.prefix| + least + |p.digits|;
    var fill := if bare < width then width - bare else 0;
    && p.front == (if left || zero then 0 else fill)
    && p.back == (if left then fill else 0)
    && p.zeros == least + (if zero && !left then fill else 0)
  }

  lemma {:induction false} DigitsDenote(n: nat, base: nat, large: bool)
    requires 2 <= base <= 36
    ensures Denote(Digits(n, base, large), n, base, large)
  {
    DigitsValue(n, base, large);
    DigitsIn(n, base, large);
    if n > 0 {
      NoLeadingZero(n, base, large);
    }
  }

  lemma {:induction false} DigitsIn(n: nat, base: nat, large: bool)
    requires 2 <= base <= 36
    ensures forall i | 0 <= i < |Digits(n, base, large)| ::
              var c := Digits(n, base, large)[i];
              && DigitValue(c) < base
              && ('0' <= c <= '9' || (if large then 'A' <= c <= 'Z' else 'a' <= c <= 'z'))
  {
    if n < base {
      DigitCharValue(n, large);
    } else {
      DivideByBase(n, base);
      DigitCharValue(n % base, large);
      DigitsIn(n / base, base, large);
    }
  }

  /** The printer's text in pieces. */
  lemma NumberPieces(num: nat, base: nat, size: int, precision: int, f: Flags) returns (p: Pieces)
    requires num < TWO64 && 2 <= base <= 36
    ensures NumberText(num, base, size, precision, f) == Joined(p)
    ensures p.sign == SignText(num, f) && p.prefix == Prefix(base, f)
    ensures Denote(p.digits, Magnitude(num, f), base, f.large) && Fills(p, size, precision, f.left, f.zeropad)
  {
    var sign, prefix, digits := SignText(num, f), Prefix(base, f), Digits(Magnitude(num, f), base, f.large);
    DigitsDenote(Magnitude(num, f), base, f.large);
    p := PiecesOf(sign, prefix, digits, size, precision, f);
  }

  lemma PiecesOf(sign: string, prefix: string, digits: string, size: int, precision: int, f: Flags) returns (p: Pieces)
    ensures Layout(sign, prefix, digits, size, precision, f) == Joined(p)
    ensures p.sign == sign && p.prefix == prefix && p.digits == digits && Fills(p, size, precision, f.left, f.zeropad)
  {
    var least := Max(precision - |digits|, 0);
    var pad := size - |sign| - |prefix| - least - |digits|;
    var fill := Max(pad, 0);
    assert |Rep('0', precision - |digits|)| == least;
    if f.left {
      p := Pieces(0, sign, prefix, least, digits, fill);
      assert Rep(' ', 0) + sign == sign;
    } else if f.zeropad {
      p := Pieces(0, sign, prefix, least + fill, digits, 0);
      assert Rep(' ', 0) + sign == sign;
      assert Rep('0', pad) + Rep('0', precision - |digits|) == Rep('0', least + fill);
      ZerosJoin(sign + prefix, Rep('0', pad), Rep('0', precision - |digits|), digits);
    } else {
      p := Pieces(fill, sign, prefix, least, digits, 0);
      assert Joined(p) == Rep(' ', fill) + sign + prefix + Rep('0', least) + digits;
    }
  }

  lemma ZerosJoin(a: string, z1: string, z2: string, d: string)
    ensures a + z1 + z2 + d == a + (z1 + z2) + d + ""
  {
    assert a + z1 + z2 == a + (z1 + z2);
  }

  // ----- The conversions -----

  /** The value of an unsigned conversion: the argument, cut to the width of the qualifier. */
  function Unsigned(d: Spec, args: seq<Arg>): nat {
    FirstWord(ValueArgs(d, args)) % Modulus(d.qual)
  }

  /** `%o`, `%u`, `%x` and `%X`: the argument in base 8, 10 or 16, with small letters or capitals;
      `#` puts "0", "0x" or "0X" in front; there is no sign. */
  lemma UnsignedLaw(d: Spec, args: seq<Arg>, rest: string) returns (p: Pieces)
    requires IsSpec(d) && d.conv in "ouxX"
    ensures Directive(Text(d) + rest, 0, args) == (Joined(p), AfterValue(d, args), |Text(d)|)
    ensures d.conv == 'o' ==> Denote(p.digits, Unsigned(d, args), 8, false)
    ensures d.conv == 'u' ==> Denote(p.digits, Unsigned(d, args), 10, false)
    ensures d.conv == 'x' ==> Denote(p.digits, Unsigned(d, args), 16, false)
    ensures d.conv == 'X' ==> Denote(p.digits, Unsigned(d, args), 16, true)
    ensures p.prefix == if '#' !in d.flags || d.conv == 'u' then "" else if d.conv == 'o' then "0"
                        else if d.conv == 'x' then "0x" else "0X"
    ensures p.sign == "" && Fills(p, Width(d, args), PrecisionValue(d, args), ToTheLeft(d, args), '0' in d.flags)
  {
    var f := NumericFlags(d.conv, FlagsOf(d.flags).(left := ToTheLeft(d, args)));
    var w := FirstWord(ValueArgs(d, args));
    IntegerUnsigned(d.qual, w);
    NumericReads(d, args, rest);
    PrefixLetters();
    p := NumberPieces(w % Modulus(d.qual), Base(d.conv), Width(d, args), PrecisionValue(d, args), f);
  }

  /** An integer conversion prints what `number` makes of its argument. */
  lemma NumericReads(d: Spec, args: seq<Arg>, rest: string)
    requires IsSpec(d) && d.conv in "diouxX"
    ensures var f := NumericFlags(d.conv, FlagsOf(d.flags).(left := ToTheLeft(d, args)));
            var num := IntegerArg(QualChar(d.qual), d.conv in "di", FirstWord(ValueArgs(d, args)));
            var text := NumberText(num, Base(d.conv), Width(d, args), PrecisionValue(d, args), f);
            Directive(Text(d) + rest, 0, args) == (text, AfterValue(d, args), |Text(d)|)
  {
    DirectiveReads(d, args, rest);
    NumericConverts(Text(d) + rest, Scanned(d, args), QualChar(d.qual), d.conv);
  }

  lemma NumericConverts(fmt: string, s: Scan, qual: char, c: char)
    requires s.i <= |fmt| && At(fmt, s.i) == c && c in "diouxX" && !s.f.sign
    ensures var num := IntegerArg(qual, c in "di", NextWord(s.args));
            var text := NumberText(num, Base(c), s.width, s.precision, NumericFlags(c, s.f));
            Convert(fmt, s, qual) == (text, Rest(s.args), s.i + 1)
  {
    assert c in "di" <==> c == 'd' || c == 'i';
    assert IsNumeric(c);
  }

  lemma IntegerUnsigned(qual: string, w: nat)
    requires qual in ["", "h", "l", "ll", "L", "Z", "z", "t"]
    ensures IntegerArg(QualChar(qual), false, w) == w % Modulus(qual) < TWO64
  {
  }

  lemma IntegerSigned(qual: string, w: nat, f: Flags)
    requires qual in ["", "h", "l", "ll", "L", "Z", "z", "t"] && f.sign
    ensures var num, v := IntegerArg(QualChar(qual), true, w), Signed(w, Modulus(qual));
            num < TWO64 && (num >= TWO63 <==> v < 0) && Magnitude(num, f) == if v < 0 then -v else v
  {
  }

  lemma PrefixLetters()
    ensures DigitChar(33, false) == 'x' && DigitChar(33, true) == 'X'
  {
  }

  function AfterValue(d: Spec, args: seq<Arg>): seq<Arg> {
    var a := ValueArgs(d, args);
    if a == [] then [] else a[1..]
  }

  /** `%d` and `%i`: the argument as a signed number, with its sign, or `+` or a blank where the
      flags ask for it. */
  lemma SignedLaw(d: Spec, args: seq<Arg>, rest: string) returns (p: Pieces)
    requires IsSpec(d) && d.conv in "di"
    ensures Directive(Text(d) + rest, 0, args) == (Joined(p), AfterValue(d, args), |Text(d)|)
    ensures var v := Signed(FirstWord(ValueArgs(d, args)), Modulus(d.qual));
            && Denote(p.digits, if v < 0 then -v else v, 10, false)
            && p.sign == if v < 0 then "-" else if '+' in d.flags then "+" else if ' ' in d.flags then " " else ""
    ensures p.prefix == "" && Fills(p, Width(d, args), PrecisionValue(d, args), ToTheLeft(d, args), '0' in d.flags)
  {
    NumericReads(d, args, rest);
    var f := NumericFlags(d.conv, FlagsOf(d.flags).(left := ToTheLeft(d, args)));
    p := SignedPieces(d.qual, FirstWord(ValueArgs(d, args)), Width(d, args), PrecisionValue(d, args), f);
  }

  lemma SignedPieces(qual: string, w: nat, width: int, precision: int, f: Flags) returns (p: Pieces)
    requires qual in ["", "h", "l", "ll", "L", "Z", "z", "t"] && f.sign && !f.large
    ensures var num, v := IntegerArg(QualChar(qual), true, w), Signed(w, Modulus(qual));
            && NumberText(num, 10, width, precision, f) == Joined(p) && p.prefix == ""
            && Denote(p.digits, if v < 0 then -v else v, 10, false)
            && p.sign == (if v < 0 then "-" else if f.plus then "+" else if f.space then " " else "")
            && Fills(p, width, precision, f.left, f.zeropad)
  {
    IntegerSigned(qual, w, f);
    p := NumberPieces(IntegerArg(QualChar(qual), true, w), 10, width, precision, f);
  }

  /** `%p`: the word in base 16 with small letters; without a width, in 16 places filled with zeros. */
  lemma PointerLaw(d: Spec, args: seq<Arg>, rest: string) returns (p: Pieces)
    requires IsSpec(d) && d.conv == 'p'
    ensures Directive(Text(d) + rest, 0, args) == (Joined(p), AfterValue(d, args), |Text(d)|)
    ensures Denote(p.digits, FirstWord(ValueArgs(d, args)) % 0x1_0000_0000_0000_0000, 16, false)
    ensures p.sign == "" && p.prefix == (if '#' in d.flags then "0x" else "")
    ensures var w := Width(d, args);
            Fills(p, if w == -1 then 16 else w, PrecisionValue(d, args), ToTheLeft(d, args), '0' in d.flags || w == -1)
  {
    PointerReads(d, args, rest);
    var f := FlagsOf(d.flags).(left := ToTheLeft(d, args));
    var w := Width(d, args);
    PrefixLetters();
    p := NumberPieces(FirstWord(ValueArgs(d, args)) % TWO64, 16, if w == -1 then 16 else w, PrecisionValue(d, args),
                      if w == -1 then f.(zeropad := true) else f);
  }

  lemma PointerReads(d: Spec, args: seq<Arg>, rest: string)
    requires IsSpec(d) && d.conv == 'p'
    ensures var f, w := FlagsOf(d.flags).(left := ToTheLeft(d, args)), Width(d, args);
            var text := NumberText(FirstWord(ValueArgs(d, args)) % TWO64, 16, if w == -1 then 16 else w,
                                   PrecisionValue(d, args), if w == -1 then f.(zeropad := true) else f);
            Directive(Text(d) + rest, 0, args) == (text, AfterValue(d, args), |Text(d)|)
  {
    DirectiveReads(d, args, rest);
  }

  /** Text in a field. */
  predicate InField(text: string, body: string, width: int, left: bool) {
    && |text| == (if |body| < width then width else |body|)
    && (if left then text[..|body|] == body else text[|text| - |body|..] == body)
    && forall i | 0 <= i < |text| && (if left then i >= |body| else i < |text| - |body|) :: text[i] == ' '
  }

  lemma FieldIsInField(body: string, width: int, left: bool)
    ensures InField(Field(body, width, left), body, width, left)
  {
  }

  /** The string a conversion is given: a null or missing one prints as "<NULL>". */
  function StringArg(args: seq<Arg>): string {
    if args != [] && args[0].Str? then args[0].s else "<NULL>"
  }

  /** `%s`: the string up to its first NUL, or as much of it as the precision allows. */
  lemma StringLaw(d: Spec, args: seq<Arg>, rest: string) returns (k: nat)
    requires IsSpec(d) && d.conv == 's'
    ensures var s, p := StringArg(ValueArgs(d, args)), PrecisionValue(d, args);
            && k <= |s| && '\0' !in s[..k] && (p >= 0 ==> k <= p)
            && (k == |s| || k == p || s[k] == '\0')
            && InField(Directive(Text(d) + rest, 0, args).0, s[..k], Width(d, args), ToTheLeft(d, args))
    ensures Directive(Text(d) + rest, 0, args).1 == AfterValue(d, args)
    ensures Directive(Text(d) + rest, 0, args).2 == |Text(d)|
  {
    DirectiveReads(d, args, rest);
    var s, p := StringArg(ValueArgs(d, args)), PrecisionValue(d, args);
    var z := CutAtNul(s);
    assert NextString(ValueArgs(d, args)) == s[..z] by {
      assert "<NULL>"[..6] == "<NULL>";
    }
    k := if 0 <= p < z then p else z;
    assert Take(s[..z], p) == s[..k];
    FieldIsInField(s[..k], Width(d, args), ToTheLeft(d, args));
  }

  lemma {:induction false} CutAtNul(s: string) returns (z: nat)
    ensures z <= |s| && CString(s) == s[..z] && '\0' !in s[..z] && (z == |s| || s[z] == '\0')
  {
    if s == [] || s[0] == '\0' {
      z := 0;
    } else {
      var y := CutAtNul(s[1..]);
      z := y + 1;
      assert s[..z] == [s[0]] + s[1..][..y];
    }
  }

  /** `%c`: one character, the low byte of the argument. */
  lemma CharLaw(d: Spec, args: seq<Arg>, rest: string)
    requires IsSpec(d) && d.conv == 'c'
    ensures var t := Directive(Text(d) + rest, 0, args);
            && InField(t.0, [(FirstWord(ValueArgs(d, args)) % 256) as char], Width(d, args), ToTheLeft(d, args))
            && t.1 == AfterValue(d, args) && t.2 == |Text(d)|
  {
    DirectiveReads(d, args, rest);
    FieldIsInField([(FirstWord(ValueArgs(d, args)) % 256) as char], Width(d, args), ToTheLeft(d, args));
  }

  // ----- Whole formats -----

  /** A format that begins with a specification prints its text, and goes on behind it with the
      arguments that are left. */
  lemma FormatBegins(d: Spec, args: seq<Arg>, rest: string)
    requires IsSpec(d)
    ensures var fmt := Text(d) + rest;
            var t := Directive(fmt, 0, args);
            t.2 <= |fmt| && Format(fmt, 0, args) == t.0 + Format(fmt, t.2, t.1)
  {
    ConvAt(d, rest);
  }

  /** Text without a `%` is printed as it is, up to a NUL. */
  lemma {:induction false} PlainText(fmt: string, i: nat, args: seq<Arg>)
    requires i <= |fmt| && '%' !in fmt[i..] && '\0' !in fmt[i..]
    ensures Format(fmt, i, args) == fmt[i..]
    decreases |fmt| - i
  {
    if i < |fmt| {
      assert fmt[i..] == [fmt[i]] + fmt[i + 1..];
      PlainText(fmt, i + 1, args);
    }
  }

  /** `%%` prints one `%`; so does a `%` at the end of the format; a letter that is no conversion
      is printed behind its `%`. None of them takes an argument. */
  lemma PercentLaw(c: char, rest: string, args: seq<Arg>)
    requires c !in "-+ #0123456789*.hlLZzt" && c !in "diouxXpscn" && c != '\0'
    ensures Directive(['%', c] + rest, 0, args) == (if c == '%' then "%" else ['%', c], args, 2)
    ensures Directive("%", 0, args) == ("%", args, 1)
  {
    var fmt := ['%', c] + rest;
    assert fmt[1] == c;
    NotFlag(c);
    assert ParseFlags(fmt, 1, NO_FLAGS) == (NO_FLAGS, 1);
    assert ParseWidth(fmt, Scan(NO_FLAGS, -1, -1, 1, args)) == Scan(NO_FLAGS, -1, -1, 1, args);
    assert ParsePrecision(fmt, Scan(NO_FLAGS, -1, -1, 1, args)) == Scan(NO_FLAGS, -1, -1, 1, args);
    assert ParseQualifier(fmt, 1) == ('\0', 1);
  }

  lemma NotFlag(c: char)
    requires c !in "-+ #0123456789*.hlLZzt" && c !in "diouxXpscn"
    ensures !IsFlag(c) && !IsDigit(c) && c != '*' && c != '.' && c !in {'h', 'l', 'L', 'Z', 'z', 't'}
    ensures !IsNumeric(c) && c != 'c' && c != 's' && c != 'p' && c != 'n'
  {
    var known := "-+ #0123456789*.hlLZzt";
    assert forall i | 0 <= i < |known| :: known[i] != c;
    var letters := "diouxXpscn";
    assert forall i | 0 <= i < |letters| :: letters[i] != c;
    assert known[0] == '-' && known[1] == '+' && known[2] == ' ' && known[3] == '#' && known[4] == '0';
    assert known[5] == '1' && known[6] == '2' && known[7] == '3' && known[8] == '4' && known[9] == '5';
    assert known[10] == '6' && known[11] == '7' && known[12] == '8' && known[13] == '9';
    assert known[14] == '*' && known[15] == '.' && known[16] == 'h' && known[17] == 'l' && known[18] == 'L';
    assert known[19] == 'Z' && known[20] == 'z' && known[21] == 't';
    assert letters[0] == 'd' && letters[1] == 'i' && letters[2] == 'o' && letters[3] == 'u' && letters[4] == 'x';
    assert letters[5] == 'X' && letters[6] == 'p' && letters[7] == 's' && letters[8] == 'c' && letters[9] == 'n';
  }
}
