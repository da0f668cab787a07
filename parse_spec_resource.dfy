/** Resource reservations and limits. Memory sizes are parsed by a function outside this
    model (go-units' RAMInBytes), given as a parameter; CPU counts are parsed here as
    exact rationals, in the decimal and fraction forms of Go's big.Rat.SetString, and
    must come to a whole number of nano-CPUs. */
module ParseSpecResource {
  import opened Common
  import opened SwarmApi
  import opened ClientSpec

  /** A memory-size parser: bytes, or the parser's error. */
  type MemoryParser = string -> Result<int>

  const NanoPerCPU: nat := 1_000_000_000

  predicate IsDigit(c: char) { '0' <= c <= '9' }

  predicate AllDigits(s: string) { forall i :: 0 <= i < |s| ==> IsDigit(s[i]) }

  function Pow10(k: nat): (r: nat)
    ensures r > 0
  {
    if k == 0 then 1 else 10 * Pow10(k - 1)
  }

  /** The value of a string of decimal digits, most significant first. */
  function DigitsValue(s: string): nat
    requires AllDigits(s)
  {
    if s == [] then 0 else 10 * DigitsValue(s[..|s| - 1]) + (s[|s| - 1] as int - '0' as int)
  }

  /** A rational number, not necessarily in lowest terms. */
  datatype Rat = Rat(num: int, den: nat)

  predicate HasSign(s: string) { |s| > 0 && (s[0] == '+' || s[0] == '-') }

  /** `q` negated when `negative` holds. */
  function WithSign(negative: bool, q: Option<Rat>): Option<Rat> {
    match q
    case None => None
    case Some(x) => Some(if negative then Rat(-x.num, x.den) else x)
  }

  /** An unsigned decimal: digits with at most one '.', and at least one digit. */
  function ParseDecimal(s: string): (r: Option<Rat>)
    ensures r.Some? ==> r.value.den > 0 && r.value.num >= 0
  {
    match IndexOf(s, '.')
    case None => if |s| > 0 && AllDigits(s) then Some(Rat(DigitsValue(s), 1)) else None
    case Some(j) =>
      var whole, frac := s[..j], s[j + 1..];
      if |whole| + |frac| > 0 && AllDigits(whole) && AllDigits(frac)
      then Some(DecimalOf(whole, frac))
      else None
  }

  /** The value of the decimal `whole` '.' `frac`: its digits read as one number, over
      ten to the number of fractional digits. */
  function DecimalOf(whole: string, frac: string): Rat
    requires AllDigits(whole) && AllDigits(frac)
  {
    Rat(DigitsValue(whole) * Pow10(|frac|) + DigitsValue(frac), Pow10(|frac|))
  }

  /** The rational a string denotes: either a fraction "a/b", a signed integer over a
      non-zero unsigned one, or a signed decimal. Anything else, surrounding spaces
      included, denotes none. */
  function ParseRat(s: string): (r: Option<Rat>)
    ensures r.Some? ==> r.value.den > 0
  {
    match IndexOf(s, '/')
    case Some(i) => ParseFraction(s[..i], s[i + 1..])
    case None => if HasSign(s) then WithSign(s[0] == '-', ParseDecimal(s[1..])) else ParseDecimal(s)
  }

  /** The value of `c` as a digit, letters counting from ten in either case as in Go's
      big-number scanner; 36 for a character that is a digit in no base. */
  function DigitValue(c: char): (r: nat)
    ensures r <= 36
    ensures r < 10 <==> IsDigit(c)
  {
    if '0' <= c <= '9' then c as int - '0' as int
    else if 'a' <= c <= 'z' then c as int - 'a' as int + 10
    else if 'A' <= c <= 'Z' then c as int - 'A' as int + 10
    else 36
  }

  predicate AllDigitsIn(s: string, base: nat) { forall i :: 0 <= i < |s| ==> DigitValue(s[i]) < base }

  /** The value of a string of digits in `base`, most significant first. */
  function ValueIn(s: string, base: nat): nat
    requires AllDigitsIn(s, base)
  {
    if s == [] then 0 else base * ValueIn(s[..|s| - 1], base) + DigitValue(s[|s| - 1])
  }

  /** At least one digit in `base` and nothing else. */
  function DigitsIn(s: string, base: nat): (r: Option<nat>)
    ensures r.Some? <==> |s| > 0 && AllDigitsIn(s, base)
  {
    if |s| > 0 && AllDigitsIn(s, base) then Some(ValueIn(s, base)) else None
  }

  /** An unsigned integer as Go's big-number scanner reads it in base 0, with the whole
      string consumed: "0x" or "0X" before hexadecimal digits, "0b" or "0B" before
      binary ones, "0o" or "0O" before octal ones, a leading "0" before octal digits,
      and decimal digits otherwise. */
  function ParseBase0(s: string): (r: Option<nat>)
    ensures r.Some? ==> s != []
  {
    if |s| >= 2 && s[0] == '0' && (s[1] == 'x' || s[1] == 'X') then DigitsIn(s[2..], 16)
    else if |s| >= 2 && s[0] == '0' && (s[1] == 'b' || s[1] == 'B') then DigitsIn(s[2..], 2)
    else if |s| >= 2 && s[0] == '0' && (s[1] == 'o' || s[1] == 'O') then DigitsIn(s[2..], 8)
    else if |s| > 0 && s[0] == '0' then (if AllDigitsIn(s[1..], 8) then Some(ValueIn(s[1..], 8)) else None)
    else DigitsIn(s, 10)
  }

  /** A side that does not start with "0" is read as plain decimal digits. */
  lemma {:induction false} Base0Decimal(s: string)
    requires |s| > 0 && s[0] != '0'
    ensures ParseBase0(s) == (if AllDigits(s) then Some(DigitsValue(s)) else None)
  {
    DecimalDigitsIn(s);
  }

  /** Digits in base ten are the decimal digits, with the same value. */
  lemma {:induction false} DecimalDigitsIn(s: string)
    ensures AllDigitsIn(s, 10) <==> AllDigits(s)
    ensures AllDigits(s) ==> ValueIn(s, 10) == DigitsValue(s)
  {
    if s != [] {
      DecimalDigitsIn(s[..|s| - 1]);
    }
  }

  /** A fraction: a numerator with an optional sign over a non-zero denominator, each
      read in base 0. */
  function ParseFraction(a: string, b: string): (r: Option<Rat>)
    ensures r.Some? ==> r.value.den > 0
  {
    var n, d := ParseBase0(if HasSign(a) then a[1..] else a), ParseBase0(b);
    if n.Some? && d.Some? && d.value > 0
    then WithSign(HasSign(a) && a[0] == '-', Some(Rat(n.value, d.value)))
    else None
  }

  /** "a/b" denotes a rational exactly when both sides read in base 0, the numerator
      after an optional sign, and the denominator is not zero; the rational is then the
      signed numerator over the denominator. */
  lemma {:induction false} FractionSpec(a: string, b: string)
    ensures var n, d := ParseBase0(if HasSign(a) then a[1..] else a), ParseBase0(b);
      ParseFraction(a, b).Some? <==> n.Some? && d.Some? && d.value > 0
    ensures ParseFraction(a, b).Some? ==>
              && ParseFraction(a, b).value.den == ParseBase0(b).value
              && ParseFraction(a, b).value.num ==
                   (if HasSign(a) && a[0] == '-' then -1 else 1) * ParseBase0(if HasSign(a) then a[1..] else a).value
  {
  }

  /** parseResourceCPU: the number of nano-CPUs a count of CPUs denotes. An unparsable
      count fails as invalid; a count that is not a whole number of nano-CPUs (more
      than nine decimal places that matter) fails on precision; otherwise the result
      is exactly the count times 10^9. */
  function ParseCPU(cpu: string): Result<int> {
    var p := ParseRat(cpu);
    if p.None? then Err(InvalidCPU(cpu))
    else
      var n := p.value.num * NanoPerCPU;
      if n % p.value.den != 0 then Err(CPUPrecision(cpu)) else Ok(n / p.value.den)
  }

  /** An unparsable count fails as invalid; a count that is not a whole number of
      nano-CPUs fails on precision; otherwise the result times the denominator is
      exactly the count times 10^9. */
  lemma {:induction false} ParseCPUSpec(cpu: string)
    ensures ParseRat(cpu).None? <==> ParseCPU(cpu) == Err(InvalidCPU(cpu))
    ensures ParseCPU(cpu) == Err(CPUPrecision(cpu)) <==>
      ParseRat(cpu).Some? && (ParseRat(cpu).value.num * NanoPerCPU) % ParseRat(cpu).value.den != 0
    ensures ParseCPU(cpu).Ok? ==>
      ParseRat(cpu).Some? && ParseCPU(cpu).value * ParseRat(cpu).value.den == ParseRat(cpu).value.num * NanoPerCPU
  {
    var p := ParseRat(cpu);
    if p.Some? && (p.value.num * NanoPerCPU) % p.value.den == 0 {
      DivExact(p.value.num * NanoPerCPU, p.value.den);
    }
  }

  lemma {:induction false} DivExact(n: int, d: int)
    requires d > 0 && n % d == 0
    ensures (n / d) * d == n
  {
  }

  lemma {:induction false} Pow10Add(a: nat, b: nat)
    ensures Pow10(a + b) == Pow10(a) * Pow10(b)
  {
    if a > 0 {
      Pow10Add(a - 1, b);
    }
  }

  lemma {:induction false} MulBound(x: int, d: int)
    requires d > 0
    ensures x >= 1 ==> x * d >= d
    ensures x <= -1 ==> x * d <= -d
  {
  }

  lemma {:induction false} MulDiv(a: int, d: int)
    requires d > 0
    ensures (a * d) % d == 0 && (a * d) / d == a
  {
    var q, r := (a * d) / d, (a * d) % d;
    assert (a - q) * d == r;
    MulBound(a - q, d);
  }

  lemma {:induction false} MulCancel(a: int, b: int, x: int)
    requires x > 0 && a * x == b * x
    ensures a == b
  {
    assert (a - b) * x == 0;
    MulBound(a - b, x);
  }

  /** The rational a decimal with whole part `whole` and fractional digits `frac`
      denotes: its digits read as one number, over ten to the number of fractional
      digits. */
  lemma {:induction false} DecimalRat(whole: string, frac: string)
    requires AllDigits(whole) && AllDigits(frac) && |whole| + |frac| > 0
    ensures IndexOf(whole + "." + frac, '/') == None
    ensures ParseRat(whole + "." + frac) == Some(DecimalOf(whole, frac))
  {
    UnsignedDecimal(whole, frac);
    DecimalValue(whole, frac);
  }

  /** Such a string has no sign and no '/', so it is read as an unsigned decimal. */
  lemma {:induction false} UnsignedDecimal(whole: string, frac: string)
    requires AllDigits(whole) && AllDigits(frac)
    ensures IndexOf(whole + "." + frac, '/') == None
    ensures ParseRat(whole + "." + frac) == ParseDecimal(whole + "." + frac)
  {
    var s := whole + "." + frac;
    assert '/' !in s by {
      assert forall i :: 0 <= i < |s| ==> s[i] == '.' || IsDigit(s[i]);
    }
    assert !HasSign(s) by {
      assert |s| > 0 && (s[0] == '.' || IsDigit(s[0]));
    }
  }

  lemma {:induction false} DecimalValue(whole: string, frac: string)
    requires AllDigits(whole) && AllDigits(frac) && |whole| + |frac| > 0
    ensures ParseDecimal(whole + "." + frac) == Some(DecimalOf(whole, frac))
  {
    var s := whole + "." + frac;
    assert '.' !in whole by {
      assert forall i :: 0 <= i < |whole| ==> IsDigit(whole[i]);
    }
    IndexOfFirst(whole, '.', frac);
    assert s[..|whole|] == whole && s[|whole| + 1..] == frac;
  }

  lemma Pow10Nine()
    ensures Pow10(9) == NanoPerCPU
  {
    assert Pow10(3) == 1000;
    assert Pow10(6) == 1000 * Pow10(3) by { Pow10Add(3, 3); }
    assert Pow10(9) == 1000 * Pow10(6) by { Pow10Add(3, 6); }
  }

  /** m/10^k in nano-units is the whole number m * 10^(9-k) when k <= 9. */
  lemma {:induction false} ScaleExact(m: int, k: nat)
    requires k <= 9
    ensures (m * NanoPerCPU) % Pow10(k) == 0 && (m * NanoPerCPU) / Pow10(k) == m * Pow10(9 - k)
  {
    Pow10Add(9 - k, k);
    Pow10Nine();
    assert m * NanoPerCPU == (m * Pow10(9 - k)) * Pow10(k);
    MulDiv(m * Pow10(9 - k), Pow10(k));
  }

  /** (w * 10^k + f) / 10^k is no whole number of nano-units when k > 9 and f does not
      end in a zero digit. */
  lemma {:induction false} ScaleInexact(w: int, f: int, k: nat)
    requires k > 9 && f % 10 != 0
    ensures ((w * Pow10(k) + f) * NanoPerCPU) % Pow10(k) != 0
  {
    var m, d := w * Pow10(k) + f, Pow10(k);
    if (m * NanoPerCPU) % d == 0 {
      DivExact(m * NanoPerCPU, d);
      WholeNanoEndsInZero(w, f, k, (m * NanoPerCPU) / d);
      assert false;
    }
  }

  /** If c * 10^k == (w * 10^k + f) * 10^9 with k > 9, then f is a multiple of ten. */
  lemma {:induction false} WholeNanoEndsInZero(w: int, f: int, k: nat, c: int)
    requires k > 9 && c * Pow10(k) == (w * Pow10(k) + f) * NanoPerCPU
    ensures f % 10 == 0
  {
    var e := Pow10(k - 10);
    assert Pow10(k) == NanoPerCPU * (10 * e) by {
      Pow10Add(9, k - 9);
      Pow10Nine();
    }
    var m := w * Pow10(k) + f;
    assert (c * (10 * e)) * NanoPerCPU == m * NanoPerCPU;
    MulCancel(c * (10 * e), m, NanoPerCPU);
    assert w * Pow10(k) == (w * NanoPerCPU * e) * 10;
    assert f == (c * e - w * NanoPerCPU * e) * 10;
  }

  /** Multiplying numerator and denominator by ten changes neither divisibility nor
      the quotient. */
  lemma {:induction false} ScaleByTen(n: int, d: int)
    requires d > 0
    ensures ((n * 10) % (d * 10) == 0) == (n % d == 0)
    ensures n % d == 0 ==> (n * 10) / (d * 10) == n / d
  {
    if n % d == 0 {
      var c := n / d;
      DivExact(n, d);
      assert n * 10 == c * (d * 10);
      MulDiv(c, d * 10);
    } else if (n * 10) % (d * 10) == 0 {
      var c := (n * 10) / (d * 10);
      DivExact(n * 10, d * 10);
      assert n * 10 == (c * d) * 10;
      MulCancel(n, c * d, 10);
      MulDiv(c, d);
      assert false;
    }
  }

  /** A plain decimal with at most nine fractional digits is always accepted, and its
      nano-CPU count is its digits read as one whole number, scaled up to nine
      fractional places. */
  lemma {:induction false} DecimalCPU(whole: string, frac: string)
    requires AllDigits(whole) && AllDigits(frac) && |whole| + |frac| > 0 && |frac| <= 9
    ensures ParseCPU(whole + "." + frac) == Ok(DecimalOf(whole, frac).num * Pow10(9 - |frac|))
  {
    DecimalRat(whole, frac);
    CPUOverPow10(whole + "." + frac, DecimalOf(whole, frac), |frac|);
  }

  /** A count denoting a rational over 10^k, with k at most nine, is accepted as its
      numerator scaled up by the remaining places. */
  lemma {:induction false} CPUOverPow10(cpu: string, q: Rat, k: nat)
    requires ParseRat(cpu) == Some(q) && k <= 9 && q.den == Pow10(k)
    ensures ParseCPU(cpu) == Ok(q.num * Pow10(9 - k))
  {
    ScaleExact(q.num, k);
    CPUExactly(cpu, q, q.num * Pow10(9 - k));
  }

  /** A count whose rational is a whole number of nano-CPUs is accepted with that
      number. */
  lemma {:induction false} CPUExactly(cpu: string, q: Rat, v: int)
    requires ParseRat(cpu) == Some(q) && (q.num * NanoPerCPU) % q.den == 0 && (q.num * NanoPerCPU) / q.den == v
    ensures ParseCPU(cpu) == Ok(v)
  {
    CPUOfRat(cpu, q);
  }


  /** A decimal whose tenth or later fractional place is a non-zero last digit is
      refused on precision. */
  lemma {:induction false} TooPreciseCPU(whole: string, frac: string)
    requires AllDigits(whole) && AllDigits(frac) && |frac| > 9 && frac[|frac| - 1] != '0'
    ensures ParseCPU(whole + "." + frac) == Err(CPUPrecision(whole + "." + frac))
  {
    var q := DecimalOf(whole, frac);
    DecimalRat(whole, frac);
    assert DigitsValue(frac) % 10 == frac[|frac| - 1] as int - '0' as int;
    ScaleInexact(DigitsValue(whole), DigitsValue(frac), |frac|);
    assert (q.num * NanoPerCPU) % q.den != 0;
    CPUOfRat(whole + "." + frac, q);
  }

  lemma {:induction false} Distrib(w: int, p: int, f: int)
    ensures w * (10 * p) + 10 * f == 10 * (w * p + f)
  {
  }

  /** ParseCPU seen through the rational its input denotes. */
  lemma {:induction false} CPUOfRat(cpu: string, q: Rat)
    requires ParseRat(cpu) == Some(q)
    ensures (q.num * NanoPerCPU) % q.den != 0 ==> ParseCPU(cpu) == Err(CPUPrecision(cpu))
    ensures (q.num * NanoPerCPU) % q.den == 0 ==> ParseCPU(cpu) == Ok((q.num * NanoPerCPU) / q.den)
  {
  }

  /** Trailing zeros do not change a decimal count: with a zero appended, the count is
      accepted exactly when it was, with the same nano-CPU value. */
  lemma {:induction false} TrailingZeroCPU(whole: string, frac: string)
    requires AllDigits(whole) && AllDigits(frac) && |whole| + |frac| > 0
    ensures ParseCPU(whole + "." + frac + "0").Ok? == ParseCPU(whole + "." + frac).Ok?
    ensures ParseCPU(whole + "." + frac).Ok? ==> ParseCPU(whole + "." + frac + "0") == ParseCPU(whole + "." + frac)
  {
    var frac0 := frac + "0";
    assert AllDigits(frac0);
    assert frac0[..|frac|] == frac;
    assert whole + "." + frac + "0" == whole + "." + frac0;
    var q, q0 := DecimalOf(whole, frac), DecimalOf(whole, frac0);
    DecimalRat(whole, frac);
    DecimalRat(whole, frac0);
    assert DigitsValue(frac0) == 10 * DigitsValue(frac);
    assert Pow10(|frac0|) == 10 * Pow10(|frac|);
    Distrib(DigitsValue(whole), Pow10(|frac|), DigitsValue(frac));
    assert q0.num == 10 * q.num && q0.den == q.den * 10;
    var n := q.num * NanoPerCPU;
    assert q0.num * NanoPerCPU == n * 10;
    ScaleByTen(n, q.den);
    CPUOfRat(whole + "." + frac, q);
    CPUOfRat(whole + "." + frac0, q0);
  }

  /** A half is half a billion nano-CPUs. */
  lemma HalfCPU()
    ensures ParseCPU("0.5") == Ok(500_000_000)
  {
    DecimalCPU("0", "5");
    assert "0" + "." + "5" == "0.5";
    HalfDecimal();
    Pow10Eight();
  }

  lemma HalfDecimal()
    ensures DecimalOf("0", "5") == Rat(5, 10)
  {
    assert DigitsValue("0") == 0 && DigitsValue("5") == 5;
    assert Pow10(1) == 10;
  }

  lemma Pow10Eight()
    ensures Pow10(8) == 100_000_000
  {
    Pow10Add(4, 4);
    assert Pow10(4) == 10_000;
  }

  /** The sign applies to the whole count. */
  lemma NegativeHalfCPU()
    ensures ParseCPU("-0.5") == Ok(-500_000_000)
  {
    NegativeHalfRat();
    CPUExactly("-0.5", Rat(-5, 10), -500_000_000);
  }

  lemma NegativeHalfRat()
    ensures ParseRat("-0.5") == Some(Rat(-5, 10))
  {
    DecimalValue("0", "5");
    assert "-0.5"[1..] == "0" + "." + "5";
    HalfDecimal();
    assert '/' !in "-0.5";
  }

  /** A fraction is read as the rational it writes. */
  lemma QuarterCPU()
    ensures ParseCPU("1/4") == Ok(250_000_000)
  {
    Base0Digit('1');
    Base0Digit('4');
    assert ['1'] == "1" && ['4'] == "4";
    UnsignedFractionRat("1", "4", 1, 4);
    assert "1" + "/" + "4" == "1/4";
    CPUExactly("1/4", Rat(1, 4), 250_000_000);
  }

  /** A string with a '/' is read as a fraction split at its first '/'. */
  lemma {:induction false} FractionRat(a: string, b: string)
    requires '/' !in a
    ensures ParseRat(a + "/" + b) == ParseFraction(a, b)
  {
    IndexOfFirst(a, '/', b);
    var s := a + "/" + b;
    assert s == a + ['/'] + b;
    assert s[..|a|] == a && s[|a| + 1..] == b;
  }

  /** An unsigned numerator and a non-zero denominator that read in base 0 make the
      fraction of their values. */
  lemma {:induction false} UnsignedFractionRat(a: string, b: string, n: nat, d: nat)
    requires '/' !in a && !HasSign(a) && ParseBase0(a) == Some(n) && ParseBase0(b) == Some(d) && d > 0
    ensures ParseRat(a + "/" + b) == Some(Rat(n, d))
  {
    FractionRat(a, b);
  }

  /** A fraction side with a leading zero is octal: "010/4" is eight quarters. */
  lemma OctalFractionCPU()
    ensures ParseCPU("010/4") == Ok(2_000_000_000)
  {
    OctalFractionRat();
    CPUExactly("010/4", Rat(8, 4), 2_000_000_000);
  }

  lemma OctalFractionRat()
    ensures ParseRat("010/4") == Some(Rat(8, 4))
  {
    OctalEight();
    Base0Digit('4');
    assert ['4'] == "4";
    UnsignedFractionRat("010", "4", 8, 4);
    assert "010" + "/" + "4" == "010/4";
  }

  lemma OctalEight()
    ensures ParseBase0("010") == Some(8)
  {
    assert "010"[1..] == "10" && "10"[..1] == "1";
    assert ValueIn("10", 8) == 8;
  }

  /** A single non-zero decimal digit reads as its value. */
  lemma {:induction false} Base0Digit(c: char)
    requires '1' <= c <= '9'
    ensures ParseBase0([c]) == Some(c as int - '0' as int)
  {
    Base0Decimal([c]);
    assert [c][..0] == [];
  }

  /** An octal side with a digit that is not octal is refused. */
  lemma BadOctalCPU()
    ensures ParseCPU("08/1") == Err(InvalidCPU("08/1"))
  {
    FractionRat("08", "1");
    assert "08" + "/" + "1" == "08/1";
    assert "08"[1..] == "8";
    assert !AllDigitsIn("8", 8);
    assert ParseBase0("08") == None;
  }

  /** A base prefix is read: "0x10/2" is sixteen halves. */
  lemma PrefixedFractionRat()
    ensures ParseRat("0x10/2") == Some(Rat(16, 2))
  {
    HexSixteen();
    Base0Digit('2');
    assert ['2'] == "2";
    UnsignedFractionRat("0x10", "2", 16, 2);
    assert "0x10" + "/" + "2" == "0x10/2";
  }

  lemma HexSixteen()
    ensures ParseBase0("0x10") == Some(16)
  {
    assert "0x10"[2..] == "10" && "10"[..1] == "1";
    assert ValueIn("10", 16) == 16;
  }

  /** Surrounding spaces are refused, since SetString does not trim. */
  lemma SpacedCPU()
    ensures ParseCPU(" 0.5") == Err(InvalidCPU(" 0.5"))
  {
    IndexOfFirst(" 0", '.', "5");
    assert " 0.5" == " 0" + ['.'] + "5";
    assert !AllDigits(" 0");
    assert ParseRat(" 0.5") == None by {
      assert '/' !in " 0.5";
      assert ParseDecimal(" 0.5") == None;
    }
  }

  /** The two blocks of the requirements. */
  datatype Slot = Reservations | Limits

  function Other(slot: Slot): Slot {
    if slot == Reservations then Limits else Reservations
  }

  /** The block `slot` of the specification, nil when the requirements or the block
      itself are nil. */
  function BlockOf(s: Spec, slot: Slot): Option<Resources> {
    match s.task.resources
    case None => None
    case Some(q) => if slot == Reservations then q.reservations else q.limits
  }

  /** The block as it is, or a fresh zero block when it is nil. */
  function Block(s: Spec, slot: Slot): Resources {
    BlockOf(s, slot).GetOr(EmptyResources)
  }

  /** The specification with block `slot` set to `b`, allocating the requirements
      when they are nil; the other block is kept. */
  function WithBlock(s: Spec, slot: Slot, b: Resources): (r: Spec)
    ensures r == s.(task := s.task.(resources := r.task.resources))
    ensures BlockOf(r, slot) == Some(b)
    ensures BlockOf(r, Other(slot)) == BlockOf(s, Other(slot))
  {
    var q := s.task.resources.GetOr(EmptyRequirements);
    s.(task := s.task.(resources := Some(if slot == Reservations then q.(reservations := Some(b)) else q.(limits := Some(b)))))
  }

  /** A memory value is applied when it is longer than one byte once trimmed. */
  predicate MemorySupplied(memory: string) { Utf8Len(TrimSpace(memory)) > 1 }

  /** A memory value that applies allocates its block first; its parse then either
      fails, leaving the allocated block, or sets the block's memory. Only that block
      changes. */
  function MemoryStep(memory: string, slot: Slot, ram: MemoryParser, s: Spec): (r: Applied)
    ensures r.spec == s.(task := s.task.(resources := r.spec.task.resources))
    ensures BlockOf(r.spec, Other(slot)) == BlockOf(s, Other(slot))
    ensures !MemorySupplied(memory) ==> r == Applied(s, None)
    ensures MemorySupplied(memory) ==> BlockOf(r.spec, slot).Some?
    ensures MemorySupplied(memory) && ram(memory).Err? ==> r == Applied(WithBlock(s, slot, Block(s, slot)), Some(ram(memory).error))
    ensures MemorySupplied(memory) && ram(memory).Ok? ==>
      r == Applied(WithBlock(s, slot, Block(s, slot).(memoryBytes := ram(memory).value)), None)
  {
    if Utf8Len(TrimSpace(memory)) > 1 then
      match ram(memory)
      case Err(e) => Applied(WithBlock(s, slot, Block(s, slot)), Some(e))
      case Ok(bytes) => Applied(WithBlock(s, slot, Block(s, slot).(memoryBytes := bytes)), None)
    else Applied(s, None)
  }

  /** A non-blank CPU count allocates its block first; its parse then either fails,
      leaving the allocated block, or sets the block's nano-CPUs. Only that block
      changes. */
  function CPUStep(cpu: string, slot: Slot, s: Spec): (r: Applied)
    ensures r.spec == s.(task := s.task.(resources := r.spec.task.resources))
    ensures BlockOf(r.spec, Other(slot)) == BlockOf(s, Other(slot))
    ensures Blank(cpu) ==> r == Applied(s, None)
    ensures !Blank(cpu) ==> BlockOf(r.spec, slot).Some?
    ensures !Blank(cpu) && ParseCPU(cpu).Err? ==> r == Applied(WithBlock(s, slot, Block(s, slot)), Some(ParseCPU(cpu).error))
    ensures !Blank(cpu) && ParseCPU(cpu).Ok? ==>
      r == Applied(WithBlock(s, slot, Block(s, slot).(nanoCPUs := ParseCPU(cpu).value)), None)
  {
    TrimSpaceEmptyIffBlank(cpu);
    if |TrimSpace(cpu)| > 0 then
      match ParseCPU(cpu)
      case Err(e) => Applied(WithBlock(s, slot, Block(s, slot)), Some(e))
      case Ok(n) => Applied(WithBlock(s, slot, Block(s, slot).(nanoCPUs := n)), None)
    else Applied(s, None)
  }

  /** parseResource as a function: memory reservation, memory limit, CPU reservation,
      CPU limit, in that order; the first error stops the rest. */
  function ResourceStep(cs: CreateSpec, ram: MemoryParser, s: Spec): Applied {
    var a := MemoryStep(cs.memoryReservation, Reservations, ram, s);
    if a.err.Some? then a else
    var b := MemoryStep(cs.memoryLimit, Limits, ram, a.spec);
    if b.err.Some? then b else
    var c := CPUStep(cs.cpuReservation, Reservations, b.spec);
    if c.err.Some? then c else
    CPUStep(cs.cpuLimit, Limits, c.spec)
  }

  /** The error of the first supplied value, in the order memory reservation, memory
      limit, CPU reservation, CPU limit, that does not parse. */
  function FirstResourceError(cs: CreateSpec, ram: MemoryParser): Option<Error> {
    if MemorySupplied(cs.memoryReservation) && ram(cs.memoryReservation).Err? then Some(ram(cs.memoryReservation).error)
    else if MemorySupplied(cs.memoryLimit) && ram(cs.memoryLimit).Err? then Some(ram(cs.memoryLimit).error)
    else if !Blank(cs.cpuReservation) && ParseCPU(cs.cpuReservation).Err? then Some(ParseCPU(cs.cpuReservation).error)
    else if !Blank(cs.cpuLimit) && ParseCPU(cs.cpuLimit).Err? then Some(ParseCPU(cs.cpuLimit).error)
    else None
  }

  /** A block after a successful parse: memory and CPU set when supplied, kept
      otherwise. */
  function Updated(b: Resources, memory: string, cpu: string, ram: MemoryParser): Resources
    requires MemorySupplied(memory) ==> ram(memory).Ok?
    requires !Blank(cpu) ==> ParseCPU(cpu).Ok?
  {
    Resources(if !Blank(cpu) then ParseCPU(cpu).value else b.nanoCPUs,
              if MemorySupplied(memory) then ram(memory).value else b.memoryBytes)
  }

  /** Nothing but the task's resources changes; the error reported is the first
      failing value's; nothing supplied leaves the specification as it is; and on
      success each block holds exactly its supplied values over the old ones, and is
      allocated exactly when it was already or a value for it was supplied. */
  lemma {:induction false} ResourceStepSpec(cs: CreateSpec, ram: MemoryParser, s: Spec)
    ensures var r := ResourceStep(cs, ram, s);
      && r.spec == s.(task := s.task.(resources := r.spec.task.resources))
      && r.err == FirstResourceError(cs, ram)
      && (!MemorySupplied(cs.memoryReservation) && !MemorySupplied(cs.memoryLimit) && Blank(cs.cpuReservation) && Blank(cs.cpuLimit)
          ==> r == Applied(s, None))
      && (r.err.None? ==>
          && Block(r.spec, Reservations) == Updated(Block(s, Reservations), cs.memoryReservation, cs.cpuReservation, ram)
          && Block(r.spec, Limits) == Updated(Block(s, Limits), cs.memoryLimit, cs.cpuLimit, ram)
          && (BlockOf(r.spec, Reservations).Some? <==>
              BlockOf(s, Reservations).Some? || MemorySupplied(cs.memoryReservation) || !Blank(cs.cpuReservation))
          && (BlockOf(r.spec, Limits).Some? <==>
              BlockOf(s, Limits).Some? || MemorySupplied(cs.memoryLimit) || !Blank(cs.cpuLimit)))
  {
    var a := MemoryStep(cs.memoryReservation, Reservations, ram, s);
    if a.err.None? {
      var b := MemoryStep(cs.memoryLimit, Limits, ram, a.spec);
      if b.err.None? {
        var c := CPUStep(cs.cpuReservation, Reservations, b.spec);
        if c.err.None? {
          var d := CPUStep(cs.cpuLimit, Limits, c.spec);
          assert ResourceStep(cs, ram, s) == d;
        }
      }
    }
  }

  /** The two nil checks that precede each value: allocate the requirements, then the
      block `slot`, each only when nil. */
  method Allocate(spec: ServiceSpec, slot: Slot)
    modifies spec
    ensures spec.Value() == WithBlock(old(spec.Value()), slot, Block(old(spec.Value()), slot))
  {
    if spec.task.resources.None? {
      spec.task := spec.task.(resources := Some(EmptyRequirements));
    }
    var q := spec.task.resources.value;
    if slot == Reservations && q.reservations.None? {
      spec.task := spec.task.(resources := Some(q.(reservations := Some(EmptyResources))));
    } else if slot == Limits && q.limits.None? {
      spec.task := spec.task.(resources := Some(q.(limits := Some(EmptyResources))));
    }
  }

  /** parseResourceMemory: sets the memory of an allocated block, or fails with the
      parser's error leaving it as it is. */
  method ParseResourceMemory(memory: string, spec: ServiceSpec, slot: Slot, ram: MemoryParser) returns (err: Option<Error>)
    requires BlockOf(spec.Value(), slot).Some?
    modifies spec
    ensures ram(memory).Err? ==> err == Some(ram(memory).error) && spec.Value() == old(spec.Value())
    ensures ram(memory).Ok? ==> err == None
    ensures ram(memory).Ok? ==>
      spec.Value() == WithBlock(old(spec.Value()), slot, Block(old(spec.Value()), slot).(memoryBytes := ram(memory).value))
  {
    var bytes := ram(memory);
    if bytes.Err? {
      return Some(bytes.error);
    }
    var q := spec.task.resources.value;
    if slot == Reservations {
      spec.task := spec.task.(resources := Some(q.(reservations := Some(q.reservations.value.(memoryBytes := bytes.value)))));
    } else {
      spec.task := spec.task.(resources := Some(q.(limits := Some(q.limits.value.(memoryBytes := bytes.value)))));
    }
    err := None;
  }

  /** parseResourceCPU on an allocated block: sets its nano-CPUs, or fails leaving it
      as it is. */
  method ParseResourceCPU(cpu: string, spec: ServiceSpec, slot: Slot) returns (err: Option<Error>)
    requires BlockOf(spec.Value(), slot).Some?
    modifies spec
    ensures ParseCPU(cpu).Err? ==> err == Some(ParseCPU(cpu).error) && spec.Value() == old(spec.Value())
    ensures ParseCPU(cpu).Ok? ==> err == None
    ensures ParseCPU(cpu).Ok? ==>
      spec.Value() == WithBlock(old(spec.Value()), slot, Block(old(spec.Value()), slot).(nanoCPUs := ParseCPU(cpu).value))
  {
    var n := ParseCPU(cpu);
    if n.Err? {
      return Some(n.error);
    }
    var q := spec.task.resources.value;
    if slot == Reservations {
      spec.task := spec.task.(resources := Some(q.(reservations := Some(q.reservations.value.(nanoCPUs := n.value)))));
    } else {
      spec.task := spec.task.(resources := Some(q.(limits := Some(q.limits.value.(nanoCPUs := n.value)))));
    }
    err := None;
  }

  /** parseResource: the four values in order, each allocating its block before it is
      parsed, returning at the first error. */
  method ParseResource(cspec: CreateSpec, spec: ServiceSpec, ram: MemoryParser) returns (err: Option<Error>)
    modifies spec
    ensures Applied(spec.Value(), err) == ResourceStep(cspec, ram, old(spec.Value()))
  {
    TrimSpaceEmptyIffBlank(cspec.cpuReservation);
    TrimSpaceEmptyIffBlank(cspec.cpuLimit);
    ghost var s0 := spec.Value();
    err := None;
    if Utf8Len(TrimSpace(cspec.memoryReservation)) > 1 {
      Allocate(spec, Reservations);
      err := ParseResourceMemory(cspec.memoryReservation, spec, Reservations, ram);
      if err.Some? {
        return;
      }
    }
    ghost var s1 := spec.Value();
    assert MemoryStep(cspec.memoryReservation, Reservations, ram, s0) == Applied(s1, None);
    if Utf8Len(TrimSpace(cspec.memoryLimit)) > 1 {
      Allocate(spec, Limits);
      err := ParseResourceMemory(cspec.memoryLimit, spec, Limits, ram);
      if err.Some? {
        return;
      }
    }
    ghost var s2 := spec.Value();
    assert MemoryStep(cspec.memoryLimit, Limits, ram, s1) == Applied(s2, None);
    if |TrimSpace(cspec.cpuReservation)| > 0 {
      Allocate(spec, Reservations);
      err := ParseResourceCPU(cspec.cpuReservation, spec, Reservations);
      if err.Some? {
        return;
      }
    }
    ghost var s3 := spec.Value();
    assert CPUStep(cspec.cpuReservation, Reservations, s2) == Applied(s3, None);
    if |TrimSpace(cspec.cpuLimit)| > 0 {
      Allocate(spec, Limits);
      err := ParseResourceCPU(cspec.cpuLimit, spec, Limits);
    }
  }
}
