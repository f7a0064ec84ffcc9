/** Numbers as text: Python's `02x`, `04x` and `str` formats and the `int`
    conversions that read them back. */
module Text {
  import opened Common

  const DIGITS: string := "0123456789abcdef"

  function Digit(n: int): char
    requires 0 <= n < 16
  {
    DIGITS[n]
  }

  function DigitValue(c: char): Option<int> {
    if '0' <= c <= '9' then Some(c as int - '0' as int)
    else if 'a' <= c <= 'f' then Some(c as int - 'a' as int + 10)
    else if 'A' <= c <= 'F' then Some(c as int - 'A' as int + 10)
    else None
  }

  lemma DigitRoundTrip(n: int)
    requires 0 <= n < 16
    ensures DigitValue(Digit(n)) == Some(n)
  {}

  /** A character reads as n exactly if it is the digit n is printed as, in
      either case of letter. */
  lemma DigitExact(c: char, n: int)
    ensures DigitValue(c) == Some(n) <==> 0 <= n < 16 && LowerChar(c) == Digit(n)
  {}

  /** One more digit on the right of a value read so far. */
  function Append(high: Option<int>, c: char, base: int): Option<int> {
    if high.Some? && DigitValue(c).Some? && DigitValue(c).value < base
    then Some(high.value * base + DigitValue(c).value)
    else None
  }

  /** The value of a digit string in a base, or None if any character is not a digit of it. */
  function Digits(s: string, base: int): Option<int> {
    if s == "" then Some(0) else Append(Digits(s[..|s| - 1], base), s[|s| - 1], base)
  }

  lemma DigitsSnoc(s: string, c: char, base: int)
    ensures Digits(s + [c], base) == Append(Digits(s, base), c, base)
  {
    assert (s + [c])[..|s|] == s;
  }

  // ---- hexadecimal, fixed width ----

  function HexByte(n: int): (s: string)
    requires 0 <= n < 256
    ensures |s| == 2
  {
    [Digit(n / 16), Digit(n % 16)]
  }

  function HexWord(n: int): string
    requires 0 <= n < 65536
  {
    HexByte(n / 256) + HexByte(n % 256)
  }

  /** `int(s, 16)` on a non-empty string of plain hexadecimal digits. */
  function ParseHex(s: string): Option<int> {
    if s == "" then None else Digits(s, 16)
  }

  lemma {:induction false} DigitsNatural(s: string, base: int)
    requires base >= 0
    ensures Digits(s, base).Some? ==> Digits(s, base).value >= 0
  {
    if s != "" {
      DigitsNatural(s[..|s| - 1], base);
      if Digits(s[..|s| - 1], base).Some? { MulNonNegativeInt(Digits(s[..|s| - 1], base).value, base); }
    }
  }

  lemma MulNonNegativeInt(a: int, b: int)
    requires a >= 0 && b >= 0
    ensures a * b >= 0
  {}

  lemma ParseHexNatural(s: string)
    ensures ParseHex(s).Some? ==> ParseHex(s).value >= 0
  {
    DigitsNatural(s, 16);
  }

  /** Two more digits read as 256 * high + byte. */
  lemma HexByteAppended(s: string, n: int)
    requires 0 <= n < 256 && Digits(s, 16).Some?
    ensures Digits(s + HexByte(n), 16) == Some(Digits(s, 16).value * 256 + n)
  {
    var high, low := Digit(n / 16), Digit(n % 16);
    DigitRoundTrip(n / 16);
    DigitRoundTrip(n % 16);
    hide Digits, Digit, DigitValue;
    DigitsSnoc(s, high, 16);
    DigitsSnoc(s + [high], low, 16);
    assert s + HexByte(n) == s + [high] + [low];
  }

  lemma ParseHexByte(n: int)
    requires 0 <= n < 256
    ensures ParseHex(HexByte(n)) == Some(n)
  {
    HexByteAppended("", n);
    assert "" + HexByte(n) == HexByte(n);
  }

  lemma ParseHexWord(n: int)
    requires 0 <= n < 65536
    ensures ParseHex(HexWord(n)) == Some(n)
  {
    hide Digits, HexByte;
    ParseHexByte(n / 256);
    HexByteAppended(HexByte(n / 256), n % 256);
  }

  lemma DigitsTwo(s: string)
    requires |s| == 2
    ensures ParseHex(s) == Append(Append(Some(0), s[0], 16), s[1], 16)
  {
    DigitsSnoc("", s[0], 16);
    DigitsSnoc([s[0]], s[1], 16);
    assert "" + [s[0]] == [s[0]] && [s[0]] + [s[1]] == s;
  }

  /** Two characters read as n exactly if they are what n is printed as, in
      either case of letter. */
  lemma HexByteExact(s: string, n: int)
    requires |s| == 2
    ensures ParseHex(s) == Some(n) <==> 0 <= n < 256 && Lower(s) == HexByte(n)
  {
    hide ParseHex, DigitValue, Digit;
    DigitsTwo(s);
    DigitExact(s[0], n / 16);
    DigitExact(s[1], n % 16);
    TwoDigits(s[0], s[1], n);
    assert Lower(s) == [LowerChar(s[0]), LowerChar(s[1])];
  }

  lemma TwoDigits(a: char, b: char, n: int)
    ensures Append(Append(Some(0), a, 16), b, 16) == Some(n) <==>
            DigitValue(a) == Some(n / 16) && DigitValue(b) == Some(n % 16) && 0 <= n < 256
  {
    DigitRange(a);
    DigitRange(b);
    hide DigitValue;
  }

  lemma DigitRange(c: char)
    ensures DigitValue(c).Some? ==> 0 <= DigitValue(c).value < 16
  {}

  lemma DigitsFour(s: string)
    requires |s| == 4
    ensures ParseHex(s).Some? <==> ParseHex(s[..2]).Some? && ParseHex(s[2..]).Some?
    ensures ParseHex(s).Some? ==>
              ParseHex(s).value == ParseHex(s[..2]).value * 256 + ParseHex(s[2..]).value
  {
    var front, c, d := s[..2], s[2], s[3];
    DigitsSnoc(front, c, 16);
    DigitsSnoc(front + [c], d, 16);
    DigitsTwo(s[2..]);
    assert front + [c] + [d] == s;
    hide Digits, DigitValue;
  }

  lemma HexWordExact(s: string, n: int)
    requires |s| == 4
    ensures ParseHex(s) == Some(n) <==> 0 <= n < 65536 && Lower(s) == HexWord(n)
  {
    DigitsFour(s);
    var front, back := s[..2], s[2..];
    assert Lower(s) == Lower(front) + Lower(back) && |Lower(front)| == 2 && |Lower(back)| == 2;
    hide ParseHex, HexByte, Lower;
    if ParseHex(s) == Some(n) {
      HexByteExact(front, ParseHex(front).value);
      HexByteExact(back, ParseHex(back).value);
      assert n / 256 == ParseHex(front).value && n % 256 == ParseHex(back).value;
    }
    if 0 <= n < 65536 && Lower(s) == HexWord(n) {
      assert Lower(front) == Lower(s)[..2] == HexWord(n)[..2] == HexByte(n / 256);
      assert Lower(back) == Lower(s)[2..] == HexWord(n)[2..] == HexByte(n % 256);
      HexByteExact(front, n / 256);
      HexByteExact(back, n % 256);
    }
  }

  /** Most significant digit first. */
  lemma HexExamples()
    ensures HexByte(26) == "1a" && HexWord(1000) == "03e8"
  {}

  // ---- decimal ----

  /** `str(n)` for a natural number. */
  function Decimal(n: nat): string {
    if n < 10 then [Digit(n)] else Decimal(n / 10) + [Digit(n % 10)]
  }

  /** `int(s)` on an optional sign and plain decimal digits. */
  function ParseDecimal(s: string): Option<int> {
    if s == "" then None
    else if s[0] == '-' || s[0] == '+' then
      if s[1..] == "" then None
      else match Digits(s[1..], 10)
        case Some(n) => Some(if s[0] == '-' then -n else n)
        case None => None
    else Digits(s, 10)
  }

  lemma DecimalUnfold(n: nat)
    requires n >= 10
    ensures Decimal(n) == Decimal(n / 10) + [Digit(n % 10)]
  {}

  lemma OneDigit(n: nat)
    requires n < 10
    ensures Digits([Digit(n)], 10) == Some(n) && '0' <= Digit(n) <= '9'
  {
    DigitRoundTrip(n);
    DigitsSnoc("", Digit(n), 10);
    assert "" + [Digit(n)] == [Digit(n)];
  }

  lemma {:induction false} DecimalDigits(n: nat)
    ensures Digits(Decimal(n), 10) == Some(n) && Decimal(n) != "" && '0' <= Decimal(n)[0] <= '9'
  {
    if n < 10 {
      OneDigit(n);
      hide Digits, Digit;
    } else {
      DecimalDigits(n / 10);
      DecimalUnfold(n);
      DigitRoundTrip(n % 10);
      DigitsSnoc(Decimal(n / 10), Digit(n % 10), 10);
      hide Digits, Decimal, Digit, DigitValue;
    }
  }

  /** Reading a printed number returns it; so printing is injective. */
  lemma DecimalRoundTrip(n: nat)
    ensures ParseDecimal(Decimal(n)) == Some(n)
  {
    DecimalDigits(n);
  }

  lemma DecimalInjective(m: nat, n: nat)
    requires Decimal(m) == Decimal(n)
    ensures m == n
  {
    DecimalRoundTrip(m);
    DecimalRoundTrip(n);
  }

  /** A sign in front, and zeros in front of the digits, mean what they should. */
  lemma DecimalSigned(s: string)
    requires s != "" && s[0] != '-' && s[0] != '+'
    ensures ParseDecimal("+" + s) == ParseDecimal("0" + s) == ParseDecimal(s)
    ensures ParseDecimal("-" + s) ==
            match ParseDecimal(s) { case Some(n) => Some(-n) case None => None }
  {
    assert ("+" + s)[1..] == s && ("-" + s)[1..] == s;
    ZeroInFront(s, 10);
  }

  lemma {:induction false} ZeroInFront(s: string, base: int)
    requires base > 0
    ensures Digits("0" + s, base) == Digits(s, base)
  {
    if s == "" {
      assert "0" + s == "" + ['0'];
      DigitsSnoc("", '0', base);
    } else {
      var last := |s| - 1;
      ZeroInFront(s[..last], base);
      DigitsSnoc("0" + s[..last], s[last], base);
      assert "0" + s[..last] + [s[last]] == "0" + s;
    }
  }
}
