/** The settings file of settings.c: its printer, its parser, and the numbers in between. */
module SettingsText {
  import opened Common

  // ---------------------------------------------------------------- characters

  predicate IsSpace(c: char) {
    c == ' ' || '\t' <= c <= '\r'
  }

  predicate IsDigit(c: char) {
    '0' <= c <= '9'
  }

  predicate IsAlnum(c: char) {
    IsDigit(c) || 'A' <= c <= 'Z' || 'a' <= c <= 'z'
  }

  predicate IsGraph(c: char) {
    '!' <= c <= '~'
  }

  /** strtok's delimiters. */
  predicate IsBreak(c: char) {
    c == '\r' || c == '\n'
  }

  /** The first place from `i` on whose character is not of the class. */
  function Skip(t: string, i: nat, p: char -> bool): (j: nat)
    requires i <= |t|
    ensures i <= j <= |t| && (forall k :: i <= k < j ==> p(t[k])) && (j < |t| ==> !p(t[j]))
    decreases |t| - i
  {
    if i < |t| && p(t[i]) then Skip(t, i + 1, p) else i
  }

  lemma {:induction false} SkipIs(t: string, i: nat, j: nat, p: char -> bool)
    requires i <= j <= |t| && (forall k :: i <= k < j ==> p(t[k])) && (j < |t| ==> !p(t[j]))
    ensures Skip(t, i, p) == j
    decreases j - i
  {
    if i < j {
      SkipIs(t, i + 1, j, p);
    }
  }

  // ---------------------------------------------------------------- numbers

  function Digit(n: nat): char
    requires n < 10
  {
    '0' + n as char
  }

  /** %u, and the digits of %d. */
  function Dec(n: nat): (r: string)
    ensures |r| > 0 && forall k :: 0 <= k < |r| ==> IsDigit(r[k])
  {
    if n < 10 then [Digit(n)] else Dec(n / 10) + [Digit(n % 10)]
  }

  function DigitValue(c: char): nat
  {
    if IsDigit(c) then (c - '0') as nat
    else if 'a' <= c <= 'f' then (c - 'a') as nat + 10
    else if 'A' <= c <= 'F' then (c - 'A') as nat + 10
    else 0
  }

  function Value(digits: string, base: nat): nat {
    if |digits| == 0 then 0 else base * Value(digits[..|digits| - 1], base) + DigitValue(digits[|digits| - 1])
  }

  lemma {:induction false} DecValue(n: nat)
    ensures Value(Dec(n), 10) == n
  {
    if n >= 10 {
      DecValue(n / 10);
      assert Dec(n)[..|Dec(n)| - 1] == Dec(n / 10);
    } else {
      assert Dec(n)[..0] == [];
    }
  }

  lemma {:induction false} DecLeading(n: nat)
    requires n > 0
    ensures Dec(n)[0] != '0'
  {
    if n >= 10 {
      DecLeading(n / 10);
    }
  }

  const ULONG_MAX := 0xFFFF_FFFF

  /** strtoul in base 10, with 32-bit longs: the value and where the number ended, 0 when there was none. */
  function StrToUl(t: string): (r: (nat, nat))
    ensures r.0 <= ULONG_MAX && r.1 <= |t|
  {
    var i := Skip(t, 0, IsSpace);
    var minus := i < |t| && t[i] == '-';
    var j := if i < |t| && (t[i] == '-' || t[i] == '+') then i + 1 else i;
    var e := Skip(t, j, IsDigit);
    if e == j then (0, 0)
    else
      var v := Value(t[j..e], 10);
      (if v > ULONG_MAX then ULONG_MAX else if minus && v > 0 then ULONG_MAX + 1 - v else v, e)
  }

  predicate IsOctal(c: char) {
    '0' <= c <= '7'
  }

  predicate IsHex(c: char) {
    IsDigit(c) || 'a' <= c <= 'f' || 'A' <= c <= 'F'
  }

  /** The number at `j` in base 0: a leading 0 makes it octal, 0x hexadecimal. */
  function Magnitude(t: string, j: nat): nat
    requires j <= |t|
  {
    if j + 2 < |t| && t[j] == '0' && (t[j + 1] == 'x' || t[j + 1] == 'X') && IsHex(t[j + 2]) then
      Value(t[j + 2..Skip(t, j + 2, IsHex)], 16)
    else if j < |t| && t[j] == '0' then Value(t[j..Skip(t, j, IsOctal)], 8)
    else Value(t[j..Skip(t, j, IsDigit)], 10)
  }

  /** strtol in base 0, with 32-bit longs. */
  function StrToL(t: string): (r: int)
    ensures -0x8000_0000 <= r < 0x8000_0000
  {
    var i := Skip(t, 0, IsSpace);
    var j := if i < |t| && (t[i] == '-' || t[i] == '+') then i + 1 else i;
    var v: int := Magnitude(t, j);
    if i < |t| && t[i] == '-' then (if v > 0x8000_0000 then -0x8000_0000 else -v)
    else (if v > 0x7FFF_FFFF then 0x7FFF_FFFF else v)
  }

  /** The cast to short int. */
  function S16(x: int): int
    requires -0x8000_0000 <= x < 0x8000_0000
  {
    var low := x % 65536;
    if low < 32768 then low else low - 65536
  }

  /** %d of a short int. */
  function Signed(n: int): string {
    if n < 0 then "-" + Dec(-n) else Dec(n)
  }

  /** A printed number is read back, whatever follows it that is no digit. */
  lemma StrToUlDec(n: nat, rest: string)
    requires n <= ULONG_MAX && (|rest| > 0 ==> !IsDigit(rest[0]))
    ensures StrToUl(Dec(n) + rest) == (n, |Dec(n)|)
  {
    hide Dec;
    var t, d := Dec(n) + rest, Dec(n);
    assert IsDigit(t[0]) by {
      assert t[0] == d[0];
    }
    SkipIs(t, 0, 0, IsSpace);
    SkipIs(t, 0, |d|, IsDigit);
    assert t[..|d|] == d;
    DecValue(n);
  }

  lemma ZeroPrinted()
    ensures Dec(0) == "0" && Value("0", 8) == 0
  {
    assert "0"[..0] == "";
  }

  lemma MagnitudeDec(t: string, j: nat, m: nat)
    requires j <= |t| && t[j..] == Dec(m)
    ensures Magnitude(t, j) == m
  {
    hide Dec, Value;
    var d := Dec(m);
    assert forall k :: 0 <= k < |d| ==> t[j + k] == t[j..][k] == d[k];
    DecValue(m);
    if m == 0 {
      ZeroPrinted();
      SkipIs(t, j, |t|, IsOctal);
    } else {
      DecLeading(m);
      SkipIs(t, j, |t|, IsDigit);
    }
    assert t[j..|t|] == d;
  }

  /** A short printed with %d is read back, negative or not. */
  lemma StrToLSigned(n: int)
    requires -0x8000_0000 <= n < 0x8000_0000
    ensures StrToL(Signed(n)) == n
  {
    hide Dec, Magnitude;
    var m: nat := if n < 0 then -n else n;
    var d, t, j := Dec(m), Signed(n), if n < 0 then 1 else 0;
    assert t[j..] == d && t[j] == d[0];
    SkipIs(t, 0, 0, IsSpace);
    MagnitudeDec(t, j, m);
  }

  // ---------------------------------------------------------------- numbers in other bases

  predicate IsDigitOf(c: char, base: nat) {
    if base == 16 then IsHex(c) else if base == 8 then IsOctal(c) else IsDigit(c)
  }

  function DigitOf(n: nat): char
    requires n < 16
  {
    if n < 10 then Digit(n) else 'a' + (n - 10) as char
  }

  function InBase(n: nat, base: nat): (r: string)
    requires base == 8 || base == 16
    ensures |r| > 0
  {
    if n < base then [DigitOf(n)] else InBase(n / base, base) + [DigitOf(n % base)]
  }

  lemma DigitOfIsDigit(n: nat, base: nat)
    requires n < base && (base == 8 || base == 16)
    ensures IsDigitOf(DigitOf(n), base) && DigitValue(DigitOf(n)) == n
  {
  }

  lemma {:induction false} InBaseValue(n: nat, base: nat)
    requires base == 8 || base == 16
    ensures Value(InBase(n, base), base) == n
    ensures forall k :: 0 <= k < |InBase(n, base)| ==> IsDigitOf(InBase(n, base)[k], base)
  {
    hide DigitOf, DigitValue, IsDigitOf;
    DigitOfIsDigit(n % base, base);
    var digits := InBase(n, base);
    if n >= base {
      InBaseValue(n / base, base);
      assert digits[..|digits| - 1] == InBase(n / base, base);
    } else {
      assert digits[..0] == "" && n % base == n;
    }
  }

  lemma {:induction false} LeadingZero(digits: string)
    ensures Value("0" + digits, 8) == Value(digits, 8)
  {
    var k := |digits| - 1;
    if k >= 0 {
      assert ("0" + digits)[..|digits|] == "0" + digits[..k];
      LeadingZero(digits[..k]);
    } else {
      assert "0" + digits == "0" && "0"[..0] == "";
    }
  }

  lemma MagnitudeHex(t: string, j: nat, n: nat)
    requires j + 2 <= |t| && t[j] == '0' && (t[j + 1] == 'x' || t[j + 1] == 'X') && t[j + 2..] == InBase(n, 16)
    ensures Magnitude(t, j) == n
  {
    hide Value, InBase, IsHex;
    InBaseValue(n, 16);
    var digits := InBase(n, 16);
    forall k | j + 2 <= k < |t| ensures IsHex(t[k]) {
      assert t[k] == digits[k - (j + 2)] && IsDigitOf(digits[k - (j + 2)], 16);
    }
    SkipIs(t, j + 2, |t|, IsHex);
    assert t[j + 2..|t|] == digits;
  }

  lemma MagnitudeOctal(t: string, j: nat, n: nat)
    requires j < |t| && t[j] == '0' && t[j + 1..] == InBase(n, 8)
    ensures Magnitude(t, j) == n
  {
    hide Value, InBase;
    InBaseValue(n, 8);
    LeadingZero(InBase(n, 8));
    var digits := InBase(n, 8);
    forall k | j + 1 <= k < |t| ensures IsOctal(t[k]) {
      assert t[k] == digits[k - (j + 1)] && IsDigitOf(digits[k - (j + 1)], 8);
    }
    SkipIs(t, j, |t|, IsOctal);
    assert t[j..|t|] == "0" + digits;
  }

  /** A link mode may be written in octal or in hexadecimal as well; what is too large for 32 bits is cut. */
  lemma StrToLOtherBases(n: nat)
    ensures StrToL("0x" + InBase(n, 16)) == StrToL("0X" + InBase(n, 16)) == StrToL("0" + InBase(n, 8))
            == if n > 0x7FFF_FFFF then 0x7FFF_FFFF else n
    ensures StrToL("-0x" + InBase(n, 16)) == StrToL("-0" + InBase(n, 8))
            == (if n > 0x8000_0000 then -0x8000_0000 else -(n as int))
  {
    hide Magnitude, InBase;
    var hex, octal := InBase(n, 16), InBase(n, 8);
    StrToLIs("0x" + hex, n);
    StrToLIs("0X" + hex, n);
    StrToLIs("0" + octal, n);
    StrToLIs("-0x" + hex, n);
    StrToLIs("-0" + octal, n);
  }

  lemma StrToLIs(t: string, n: nat)
    requires t == "0x" + InBase(n, 16) || t == "0X" + InBase(n, 16) || t == "0" + InBase(n, 8)
             || t == "-0x" + InBase(n, 16) || t == "-0" + InBase(n, 8)
    ensures StrToL(t) == if t[0] != '-' then if n > 0x7FFF_FFFF then 0x7FFF_FFFF else n
                         else if n > 0x8000_0000 then -0x8000_0000 else -(n as int)
  {
    hide Magnitude, InBase;
    SkipIs(t, 0, 0, IsSpace);
    var j := if t[0] == '-' then 1 else 0;
    if t[j + 1..] == InBase(n, 8) && t[j] == '0' {
      MagnitudeOctal(t, j, n);
    } else {
      MagnitudeHex(t, j, n);
    }
  }
}
