/** Decimal integers as strconv parses them and fmt's %d prints them. */
module Numbers {
  import opened Wrappers

  const MinInt64: int := -0x8000_0000_0000_0000
  const MaxInt64: int := 0x7FFF_FFFF_FFFF_FFFF

  predicate InInt64(n: int) {
    MinInt64 <= n <= MaxInt64
  }

  predicate IsDigit(c: char) {
    '0' <= c <= '9'
  }

  predicate AllDigits(s: string) {
    forall i :: 0 <= i < |s| ==> IsDigit(s[i])
  }

  function DigitValue(c: char): nat
    requires IsDigit(c)
  {
    c as int - '0' as int
  }

  /** Value of a decimal numeral, most significant digit first. */
  function Decimal(s: string): nat
    requires AllDigits(s)
  {
    if s == [] then 0 else Decimal(s[..|s| - 1]) * 10 + DigitValue(s[|s| - 1])
  }

  /** The text after an optional leading sign. */
  function Unsigned(s: string): (body: string)
    ensures |body| <= |s| && body == s[|s| - |body|..]
  {
    if s != [] && (s[0] == '+' || s[0] == '-') then s[1..] else s
  }

  /** An optional sign followed by one or more decimal digits: the text strconv accepts as a number,
      in range or not. */
  predicate DecimalSyntax(s: string) {
    Unsigned(s) != [] && AllDigits(Unsigned(s))
  }

  /** The number a decimal numeral denotes, whatever its size. */
  function SignedDecimal(s: string): int
    requires DecimalSyntax(s)
  {
    if s[0] == '-' then 0 - Decimal(Unsigned(s)) else Decimal(Unsigned(s))
  }

  /** strconv.ParseInt(s, 10, 64), and strconv.Atoi on a 64-bit platform: an optional sign, then one
      or more decimal digits whose value fits in 64 bits; anything else is a syntax or range error. */
  function ParseInt64(s: string): (r: Option<int>)
    ensures r.Some? ==> InInt64(r.value)
  {
    if !DecimalSyntax(s) then None
    else
      var v := SignedDecimal(s);
      if InInt64(v) then Some(v) else None
  }

  lemma {:induction false} DecimalLeadingZero(s: string)
    requires AllDigits(s)
    ensures AllDigits("0" + s) && Decimal("0" + s) == Decimal(s)
  {
    if s != [] {
      var t := "0" + s;
      assert t[..|t| - 1] == "0" + s[..|s| - 1];
      DecimalLeadingZero(s[..|s| - 1]);
    }
  }

  /** strconv reads "+" and leading zeros as nothing: "+7", "007" and "7" are the same number, and so
      are "-0" and "0"; a run of digits is accepted up to 2^63 - 1, and after '-' up to 2^63. */
  lemma SignAndZerosIgnored(digits: string)
    requires digits != [] && AllDigits(digits)
    ensures ParseInt64("+" + digits) == ParseInt64(digits)
    ensures ParseInt64("0" + digits) == ParseInt64(digits)
    ensures ParseInt64("-" + digits) == if Decimal(digits) <= MaxInt64 + 1 then Some(0 - Decimal(digits)) else None
    ensures ParseInt64(digits) == if Decimal(digits) <= MaxInt64 then Some(Decimal(digits)) else None
  {
    PlusIgnored(digits);
    ZeroIgnored(digits);
    MinusNegates(digits);
    PlainDigits(digits);
  }

  lemma PlainDigits(digits: string)
    requires digits != [] && AllDigits(digits)
    ensures ParseInt64(digits) == if Decimal(digits) <= MaxInt64 then Some(Decimal(digits)) else None
  {
    assert IsDigit(digits[0]);
    assert Unsigned(digits) == digits;
    assert SignedDecimal(digits) == Decimal(digits);
  }

  lemma PlusIgnored(digits: string)
    requires digits != [] && AllDigits(digits)
    ensures ParseInt64("+" + digits) == ParseInt64(digits)
  {
    assert Unsigned("+" + digits) == digits == Unsigned(digits);
    assert SignedDecimal("+" + digits) == Decimal(digits) == SignedDecimal(digits);
  }

  lemma ZeroIgnored(digits: string)
    requires digits != [] && AllDigits(digits)
    ensures ParseInt64("0" + digits) == ParseInt64(digits)
  {
    DecimalLeadingZero(digits);
    assert Unsigned("0" + digits) == "0" + digits;
    assert Unsigned(digits) == digits;
    assert SignedDecimal("0" + digits) == Decimal(digits) == SignedDecimal(digits);
  }

  lemma MinusNegates(digits: string)
    requires digits != [] && AllDigits(digits)
    ensures ParseInt64("-" + digits) == if Decimal(digits) <= MaxInt64 + 1 then Some(0 - Decimal(digits)) else None
  {
    var d := Decimal(digits);
    assert Unsigned("-" + digits) == digits;
    assert DecimalSyntax("-" + digits);
    assert SignedDecimal("-" + digits) == 0 - d;
    assert InInt64(0 - d) <==> d <= MaxInt64 + 1;
  }

  /** strconv.Atoi: the same rules as ParseInt64 where int is 64 bits wide. */
  function Atoi(s: string): (r: Option<int>)
    ensures !DecimalSyntax(s) ==> r.None?
    ensures r.Some? ==> InInt64(r.value) && FormatInt(r.value) == Canonical(s)
  {
    if ParseInt64(s).Some? then FormatOfParsed(s); ParseInt64(s) else None
  }

  /** The digits of a natural number, without leading zeros. */
  function Digits(n: nat): (r: string)
    ensures r != [] && AllDigits(r)
    ensures r[0] == '0' ==> n == 0
  {
    var d := (('0' as int) + n % 10) as char;
    if n < 10 then [d] else Digits(n / 10) + [d]
  }

  /** fmt.Sprintf("%d", n). */
  function FormatInt(n: int): (r: string)
    ensures r != []
    ensures forall i :: 0 <= i < |r| ==> IsDigit(r[i]) || (i == 0 && r[i] == '-')
  {
    if n < 0 then "-" + Digits(-n) else Digits(n)
  }

  lemma {:induction false} DecimalDigits(n: nat)
    ensures Decimal(Digits(n)) == n
  {
    var d := (('0' as int) + n % 10) as char;
    if n >= 10 {
      DecimalDigits(n / 10);
      var ds := Digits(n / 10) + [d];
      assert ds[..|ds| - 1] == Digits(n / 10);
    }
  }

  /** Every 64-bit integer printed with %d parses back to itself. */
  lemma ParseFormat(n: int)
    requires InInt64(n)
    ensures ParseInt64(FormatInt(n)) == Some(n)
  {
    if n < 0 {
      DecimalDigits(-n);
      assert ("-" + Digits(-n))[1..] == Digits(-n);
    } else {
      DecimalDigits(n);
    }
  }

  /** A numeral with its leading zeros dropped, down to one digit. */
  function LeadingZerosDropped(d: string): (r: string)
    requires d != [] && AllDigits(d)
    ensures r != [] && AllDigits(r) && (r[0] == '0' ==> |r| == 1)
    ensures Decimal(r) == Decimal(d)
  {
    if |d| > 1 && d[0] == '0' then
      DecimalLeadingZero(d[1..]);
      assert d == "0" + d[1..];
      LeadingZerosDropped(d[1..])
    else d
  }

  /** The numeral %d prints for the value of an accepted text: no '+', no leading zeros, and no '-'
      before zero. */
  function Canonical(s: string): string
    requires DecimalSyntax(s)
  {
    var digits := LeadingZerosDropped(Unsigned(s));
    if s[0] == '-' && digits != "0" then "-" + digits else digits
  }

  /** The converse of ParseFormat: every text ParseInt64 accepts is what %d prints for its value, once a
      leading '+', leading zeros and a '-' before zero are dropped. */
  lemma FormatOfParsed(s: string)
    requires ParseInt64(s).Some?
    ensures DecimalSyntax(s) && FormatInt(ParseInt64(s).value) == Canonical(s)
  {
    var d := LeadingZerosDropped(Unsigned(s));
    DigitsOfDecimal(d);
    if d != "0" {
      assert d[0] != '0';
      DecimalPositive(d);
    }
  }

  lemma {:induction false} DecimalPositive(d: string)
    requires d != [] && AllDigits(d) && d[0] != '0'
    ensures Decimal(d) >= 1
  {
    if |d| > 1 {
      var p := d[..|d| - 1];
      assert p[0] == d[0];
      DecimalPositive(p);
    }
  }

  /** A numeral without leading zeros is what %d prints for its value. */
  lemma {:induction false} DigitsOfDecimal(d: string)
    requires d != [] && AllDigits(d) && (d[0] == '0' ==> |d| == 1)
    ensures Digits(Decimal(d)) == d
  {
    var n := |d|;
    if n == 1 {
      assert d[..0] == [];
      assert Decimal(d) == DigitValue(d[0]);
    } else {
      var p := d[..n - 1];
      assert p[0] == d[0];
      DigitsOfDecimal(p);
      DecimalPositive(p);
      var v := Decimal(d);
      assert v == Decimal(p) * 10 + DigitValue(d[n - 1]);
      assert v / 10 == Decimal(p) && v % 10 == DigitValue(d[n - 1]);
      assert d == p + [d[n - 1]];
    }
  }

  /** Printing is injective on all integers, so distinct ids print distinctly. */
  lemma FormatInjective(a: int, b: int)
    requires FormatInt(a) == FormatInt(b)
    ensures a == b
  {
    if a < 0 && b < 0 {
      assert Digits(-a) == FormatInt(a)[1..];
      DecimalDigits(-a);
      DecimalDigits(-b);
    } else if a >= 0 && b >= 0 {
      DecimalDigits(a);
      DecimalDigits(b);
    }
  }

  /** strconv.ParseBool; GetAllMembers ignores the error, so an unparsable value reads as false. */
  function ParseBool(s: string): (r: Option<bool>)
    ensures r == Some(true) <==> s in {"1", "t", "T", "TRUE", "true", "True"}
    ensures r == Some(false) <==> s in {"0", "f", "F", "FALSE", "false", "False"}
  {
    match s
    case "1" => Some(true)
    case "t" => Some(true)
    case "T" => Some(true)
    case "TRUE" => Some(true)
    case "true" => Some(true)
    case "True" => Some(true)
    case "0" => Some(false)
    case "f" => Some(false)
    case "F" => Some(false)
    case "FALSE" => Some(false)
    case "false" => Some(false)
    case "False" => Some(false)
    case _ => None
  }

  const MaxUint64: int := 0xFFFF_FFFF_FFFF_FFFF

  /** The length of the run of digits `s` starts with. */
  function DigitRun(s: string): (n: nat)
    ensures n <= |s| && AllDigits(s[..n])
    ensures n < |s| ==> !IsDigit(s[n])
  {
    if s == [] || !IsDigit(s[0]) then 0
    else
      var n := 1 + DigitRun(s[1..]);
      assert s[..n] == [s[0]] + s[1..][..n - 1];
      n
  }

  /** strconv scans the digits from the left and stops with a range error as soon as their value
      passes 2^64 - 1, so a text whose leading digits overflow is out of range whatever follows them. */
  predicate LeadingDigitsOverflow(s: string) {
    var body := Unsigned(s);
    Decimal(body[..DigitRun(body)]) > MaxUint64
  }

  /** The bound Atoi returns on a range error: MinInt64 after '-', MaxInt64 otherwise. */
  function RangeBound(s: string): int {
    if s != [] && s[0] == '-' then MinInt64 else MaxInt64
  }

  /** The number strconv.Atoi returns beside its error, for a caller that drops the error: the value
      when it parses, the bound on a range error, which leading digits that overflow raise before any
      later character is read, and 0 on a syntax error. */
  function AtoiValue(s: string): (n: int)
    ensures InInt64(n)
    ensures ParseInt64(s).Some? ==> n == ParseInt64(s).value
    ensures LeadingDigitsOverflow(s) ==> n == RangeBound(s)
    ensures DecimalSyntax(s) && ParseInt64(s).None? ==> n == RangeBound(s)
    ensures !DecimalSyntax(s) && !LeadingDigitsOverflow(s) ==> n == 0
  {
    if LeadingDigitsOverflow(s) then
      OverflowIsOutOfRange(s);
      RangeBound(s)
    else
      match ParseInt64(s)
      case Some(v) => v
      case None => if DecimalSyntax(s) then RangeBound(s) else 0
  }

  lemma OverflowIsOutOfRange(s: string)
    requires LeadingDigitsOverflow(s)
    ensures ParseInt64(s).None?
  {
    if DecimalSyntax(s) {
      var body := Unsigned(s);
      DigitRunOf(body, []);
      assert body + [] == body && body[..|body|] == body;
    }
  }

  /** Stripping the sign of a sign, digits and a tail leaves the digits and the tail, and the digit run
      is exactly the digits. */
  lemma SplitAtDigits(sign: string, digits: string, rest: string)
    requires sign == "" || sign == "+" || sign == "-"
    requires digits != [] && AllDigits(digits)
    requires rest == [] || !IsDigit(rest[0])
    ensures Unsigned(sign + digits + rest) == digits + rest
    ensures DigitRun(digits + rest) == |digits| && (digits + rest)[..|digits|] == digits
  {
    DigitRunOf(digits, rest);
    assert (digits + rest)[..|digits|] == digits;
    assert IsDigit((digits + rest)[0]);
    SignStripped(sign, digits + rest);
    ConcatAssoc(sign, digits, rest);
  }

  // Sequence-algebra step, stated apart so that the proofs that use it stay small for the solver.
  lemma ConcatAssoc(a: string, b: string, c: string)
    ensures a + b + c == a + (b + c)
  {
  }

  lemma SignStripped(sign: string, body: string)
    requires sign == "" || sign == "+" || sign == "-"
    requires body != [] && IsDigit(body[0])
    ensures Unsigned(sign + body) == body
  {
    if sign == "" {
      assert sign + body == body;
    } else {
      assert (sign + body)[1..] == body;
    }
  }

  /** The digit run of a sign, digits and a tail that does not start with a digit is those digits. */
  lemma {:induction false} DigitRunOf(digits: string, rest: string)
    requires AllDigits(digits)
    requires rest == [] || !IsDigit(rest[0])
    ensures DigitRun(digits + rest) == |digits|
  {
    if digits != [] {
      assert (digits + rest)[1..] == digits[1..] + rest;
      DigitRunOf(digits[1..], rest);
    }
  }

  /** Digits that overflow 64 bits give the bound, whatever text follows them. */
  lemma AtoiOverflowBeforeJunk(sign: string, digits: string, rest: string)
    requires sign == "" || sign == "+" || sign == "-"
    requires digits != [] && AllDigits(digits) && Decimal(digits) > MaxUint64
    requires rest == [] || !IsDigit(rest[0])
    ensures AtoiValue(sign + digits + rest) == if sign == "-" then MinInt64 else MaxInt64
  {
    SplitAtDigits(sign, digits, rest);
  }

  /** Digits within 64 bits followed by anything else are a syntax error, which Atoi answers with 0. */
  lemma AtoiJunkWithinRange(sign: string, digits: string, rest: string)
    requires sign == "" || sign == "+" || sign == "-"
    requires digits != [] && AllDigits(digits) && Decimal(digits) <= MaxUint64
    requires rest != [] && !IsDigit(rest[0])
    ensures AtoiValue(sign + digits + rest) == 0
  {
    var s := sign + digits + rest;
    SplitAtDigits(sign, digits, rest);
    var body := digits + rest;
    assert body[|digits|] == rest[0];
    assert !DecimalSyntax(s) by { assert Unsigned(s) == body && !IsDigit(body[|digits|]); }
    assert !LeadingDigitsOverflow(s) by { assert Unsigned(s)[..DigitRun(Unsigned(s))] == digits; }
  }
}
