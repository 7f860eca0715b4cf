/**
 * The string helpers the ledger leans on: `strings.Split` and
 * `strings.TrimSuffix` for the allocation syntax, `strconv.ParseFloat` for
 * percentages, `strconv.ParseInt` for trade ids, and `strconv.Itoa` /
 * `strconv.FormatFloat(x, 'f', 2, ..)` for the response lines.
 */
module Text {
  import opened Wrappers

  const MinInt64: int := -0x8000_0000_0000_0000
  const MaxInt64: int := 0x7fff_ffff_ffff_ffff

  // ---------------------------------------------------------------------------
  // Splitting on a one-character separator

  /** Puts the separator back between the pieces. */
  function Join(parts: seq<string>, sep: char): string
    requires |parts| >= 1
  {
    if |parts| == 1 then parts[0] else parts[0] + [sep] + Join(parts[1..], sep)
  }

  /**
   * The pieces of `s` between occurrences of `sep`, as `strings.Split` with a
   * non-empty separator: never an empty list (the empty string gives one
   * empty piece) and no piece holds the separator.
   */
  function Split(s: string, sep: char): (parts: seq<string>)
    ensures |parts| >= 1
    ensures forall i :: 0 <= i < |parts| ==> sep !in parts[i]
    decreases |s|
  {
    if s == [] then [[]]
    else
      var rest := Split(s[1..], sep);
      if s[0] == sep then [[]] + rest
      else [[s[0]] + rest[0]] + rest[1..]
  }

  /** Joining the pieces gives the string back. */
  lemma {:induction false} JoinSplit(s: string, sep: char)
    ensures Join(Split(s, sep), sep) == s
    decreases |s|
  {
    if s != [] {
      JoinSplit(s[1..], sep);
      var rest := Split(s[1..], sep);
      if s[0] == sep {
        assert ([[]] + rest)[1..] == rest;
      } else {
        var parts := [[s[0]] + rest[0]] + rest[1..];
        assert parts[1..] == rest[1..];
        if |rest| > 1 {
          assert Join(rest, sep) == rest[0] + [sep] + Join(rest[1..], sep);
        }
      }
      assert s == [s[0]] + s[1..];
    }
  }

  /** There is one piece more than there are separators. */
  lemma {:induction false} SplitCount(s: string, sep: char)
    ensures |Split(s, sep)| == multiset(s)[sep] + 1
    decreases |s|
  {
    if s != [] {
      SplitCount(s[1..], sep);
      assert s == [s[0]] + s[1..];
      assert multiset(s) == multiset{s[0]} + multiset(s[1..]);
    }
  }

  /** A separator-free prefix followed by the separator is split off as one piece. */
  lemma {:induction false} SplitAfterPiece(a: string, sep: char, b: string)
    requires sep !in a
    ensures Split(a + [sep] + b, sep) == [a] + Split(b, sep)
    decreases |a|
  {
    if a == [] {
      assert a + [sep] + b == [sep] + b;
      assert ([sep] + b)[1..] == b;
    } else {
      SplitAfterPiece(a[1..], sep, b);
      assert (a + [sep] + b)[1..] == a[1..] + [sep] + b;
      assert [a[0]] + a[1..] == a;
    }
  }

  /** Three pieces joined by the separator split back into those pieces. */
  lemma SplitFields(a: string, b: string, c: string, sep: char)
    requires sep !in b && sep !in c
    ensures sep !in a ==> Split(a + [sep] + b + [sep] + c, sep) == [a, b, c]
  {
    if sep !in a {
      SplitWhole(c, sep);
      SplitAfterPiece(b, sep, c);
      assert a + [sep] + b + [sep] + c == a + [sep] + (b + [sep] + c);
      SplitAfterPiece(a, sep, b + [sep] + c);
    }
  }

  /** A string without the separator is a single piece. */
  lemma {:induction false} SplitWhole(a: string, sep: char)
    requires sep !in a
    ensures Split(a, sep) == [a]
    decreases |a|
  {
    if a != [] {
      SplitWhole(a[1..], sep);
      assert [a[0]] + a[1..] == a;
    }
  }

  /** Splitting undoes joining pieces that do not contain the separator. */
  lemma {:induction false} SplitJoin(parts: seq<string>, sep: char)
    requires |parts| >= 1
    requires forall i :: 0 <= i < |parts| ==> sep !in parts[i]
    ensures Split(Join(parts, sep), sep) == parts
    decreases |parts|
  {
    if |parts| == 1 {
      SplitWhole(parts[0], sep);
    } else {
      SplitJoin(parts[1..], sep);
      SplitAfterPiece(parts[0], sep, Join(parts[1..], sep));
      assert [parts[0]] + parts[1..] == parts;
    }
  }

  /** `strings.TrimSuffix(s, "%")`: drops one trailing percent sign, if any. */
  function TrimPercent(s: string): (t: string)
    ensures s == t + "%" || s == t
    ensures s == t + "%" <==> |s| > 0 && s[|s| - 1] == '%'
  {
    if |s| > 0 && s[|s| - 1] == '%' then s[..|s| - 1] else s
  }

  // ---------------------------------------------------------------------------
  // Decimal digits

  predicate IsDigit(c: char) {
    '0' <= c <= '9'
  }

  predicate AllDigits(s: string) {
    forall i :: 0 <= i < |s| ==> IsDigit(s[i])
  }

  function DigitChar(d: nat): (c: char)
    requires d < 10
    ensures IsDigit(c) && c as int - '0' as int == d
  {
    ('0' as int + d) as char
  }

  function DigitValue(c: char): (d: nat)
    requires IsDigit(c)
    ensures d < 10 && DigitChar(d) == c
  {
    (c as int - '0' as int)
  }

  /** The number a string of decimal digits denotes (the empty string denotes 0). */
  function DigitsValue(s: string): nat
    requires AllDigits(s)
  {
    if s == [] then 0 else DigitsValue(s[..|s| - 1]) * 10 + DigitValue(s[|s| - 1])
  }

  function Pow10(n: nat): (p: nat)
    ensures p >= 1
  {
    if n == 0 then 1 else 10 * Pow10(n - 1)
  }

  /** The shortest decimal rendering of a natural number. */
  function NatText(n: nat): string
  {
    if n < 10 then [DigitChar(n)] else NatText(n / 10) + [DigitChar(n % 10)]
  }

  /** The rendering is a non-empty digit string that denotes `n`. */
  lemma {:induction false} NatTextDenotes(n: nat)
    ensures |NatText(n)| >= 1 && AllDigits(NatText(n))
    ensures DigitsValue(NatText(n)) == n
  {
    var t := NatText(n);
    if n >= 10 {
      NatTextDenotes(n / 10);
      assert t[..|t| - 1] == NatText(n / 10);
    }
  }

  lemma DigitsHaveNoDot(s: string)
    requires AllDigits(s)
    ensures '.' !in s
  {
  }

  /** `strconv.Itoa`: an optional minus sign, then the digits. */
  function Itoa(n: int): string
  {
    if n < 0 then "-" + NatText(-n) else NatText(n)
  }

  /**
   * The rendering of an integer has a minus sign exactly when the integer is
   * negative, then one or more digits that denote its magnitude; so it holds
   * no ':'.
   */
  lemma ItoaDenotes(n: int)
    ensures var s := Itoa(n);
      && |s| >= 1 && (s[0] == '-' <==> n < 0)
      && var digits := if n < 0 then s[1..] else s;
      && |digits| >= 1 && AllDigits(digits) && DigitsValue(digits) == (if n < 0 then -n else n)
      && ':' !in s
  {
    var s := Itoa(n);
    NatTextDenotes(if n < 0 then -n else n);
    var digits := if n < 0 then s[1..] else s;
    assert IsDigit(digits[0]);
    forall i | 0 <= i < |s|
      ensures s[i] != ':'
    {
      if n < 0 && i > 0 {
        assert s[i] == digits[i - 1];
      }
    }
  }

  /** A decimal number holds no ':'. */
  lemma ItoaHasNoColon(n: int)
    ensures ':' !in Itoa(n)
  {
    ItoaDenotes(n);
  }

  // ---------------------------------------------------------------------------
  // strconv.ParseInt(s, 10, 64)

  /** An optional leading '+' or '-' and what follows it. */
  function SignAndBody(s: string): (r: (bool, string))
    ensures r.1 == s || (|s| > 0 && r.1 == s[1..] && (s[0] == '+' || s[0] == '-'))
    ensures r.0 ==> |s| > 0 && s[0] == '-'
  {
    if |s| > 0 && (s[0] == '+' || s[0] == '-') then (s[0] == '-', s[1..]) else (false, s)
  }

  /**
   * `strconv.ParseInt(s, 10, 64)`: an optional sign, then one or more decimal
   * digits, and the value must fit in 64 bits; anything else is an error.
   */
  function ParseInt(s: string): (r: Option<int>)
    ensures r.Some? ==> MinInt64 <= r.value <= MaxInt64
    ensures r.Some? ==> exists i :: 0 <= i < |s| && IsDigit(s[i])
  {
    var (negative, body) := SignAndBody(s);
    if body == [] || !AllDigits(body) then None
    else
      var magnitude := DigitsValue(body);
      var v: int := if negative then -(magnitude as int) else magnitude;
      assert IsDigit(s[|s| - 1]);
      if MinInt64 <= v <= MaxInt64 then Some(v) else None
  }

  /** Every 64-bit integer, as `Itoa` renders it, parses back to itself. */
  lemma ParseIntItoa(n: int)
    requires MinInt64 <= n <= MaxInt64
    ensures ParseInt(Itoa(n)) == Some(n)
  {
    var sign, magnitude := if n < 0 then "-" else "", if n < 0 then -n else n;
    NatTextDenotes(magnitude);
    assert Itoa(n) == sign + NatText(magnitude);
    ParseIntDigits(sign, NatText(magnitude));
  }

  /** A text whose part after the sign is one or more digits reads as that signed value, if it fits. */
  lemma ParseIntOfBody(s: string)
    requires |SignAndBody(s).1| >= 1 && AllDigits(SignAndBody(s).1)
    ensures var (negative, body) := SignAndBody(s);
      var v: int := if negative then -(DigitsValue(body) as int) else DigitsValue(body);
      ParseInt(s) == if MinInt64 <= v <= MaxInt64 then Some(v) else None
  {
  }

  /**
   * An optional sign and one or more digits read as the number they denote
   * (leading zeros allowed), provided it fits in 64 bits; otherwise the
   * text is rejected.
   */
  lemma ParseIntDigits(sign: string, digits: string)
    requires sign == "" || sign == "+" || sign == "-"
    requires |digits| >= 1 && AllDigits(digits)
    ensures var v: int := if sign == "-" then -(DigitsValue(digits) as int) else DigitsValue(digits);
      ParseInt(sign + digits) == if MinInt64 <= v <= MaxInt64 then Some(v) else None
  {
    var s := sign + digits;
    assert IsDigit(digits[0]);
    if sign == "" {
      assert s == digits;
    } else {
      assert s[0] == sign[0] && s[1..] == digits;
    }
    assert SignAndBody(s) == (sign == "-", digits);
    ParseIntOfBody(s);
  }

  /**
   * A character that is not a digit, other than a sign in front, makes the
   * text no integer; so does a sign with nothing after it.
   */
  lemma ParseIntRejects(s: string, j: int)
    requires 0 <= j < |s|
    requires !IsDigit(s[j])
    requires j > 0 || (s[0] != '+' && s[0] != '-') || |s| == 1
    ensures ParseInt(s) == None
  {
    var (negative, body) := SignAndBody(s);
    if body != s && j > 0 {
      assert body[j - 1] == s[j];
    }
  }

  /** The empty text is no integer. */
  lemma ParseIntEmpty()
    ensures ParseInt("") == None
  {
  }

  // ---------------------------------------------------------------------------
  // strconv.ParseFloat, with the error thrown away

  /**
   * The decimal number `s` denotes, read as `[+|-] digits [. digits]` with at
   * least one digit; any other text reads as 0, which is what the caller of
   * `strconv.ParseFloat` gets when it ignores the syntax error.
   */
  function ParseFloat(s: string): real
  {
    var (negative, body) := SignAndBody(s);
    if negative then -ParseUnsigned(body) else ParseUnsigned(body)
  }

  /** The unsigned part: `digits [. digits]` with at least one digit, else 0. */
  function ParseUnsigned(body: string): real
  {
    var parts := Split(body, '.');
    if |parts| > 2 then 0.0
    else
      var whole := parts[0];
      var fraction := if |parts| == 2 then parts[1] else [];
      if !AllDigits(whole) || !AllDigits(fraction) || |whole| + |fraction| == 0 then 0.0
      else DigitsValue(whole) as real + DigitsValue(fraction) as real / Pow10(|fraction|) as real
  }

  /** A natural number in decimal reads as itself. */
  lemma ParseFloatNat(n: nat)
    ensures ParseFloat(NatText(n)) == n as real
  {
    NatTextDenotes(n);
    var t := NatText(n);
    assert IsDigit(t[0]);
    assert SignAndBody(t) == (false, t);
    DigitsHaveNoDot(t);
    SplitWhole(t, '.');
  }

  /** Joined pieces that are all digits contain only digits and dots. */
  lemma {:induction false} JoinedDigitsChars(parts: seq<string>, j: int)
    requires |parts| >= 1
    requires forall i :: 0 <= i < |parts| ==> AllDigits(parts[i])
    requires 0 <= j < |Join(parts, '.')|
    ensures IsDigit(Join(parts, '.')[j]) || Join(parts, '.')[j] == '.'
    decreases |parts|
  {
    if |parts| > 1 {
      var head := parts[0] + ['.'];
      if j >= |head| {
        JoinedDigitsChars(parts[1..], j - |head|);
      }
    }
  }

  /**
   * A character that can be neither a digit, nor the decimal point, nor a
   * leading sign makes the whole percentage read as 0.
   */
  lemma ParseFloatRejects(s: string, j: int)
    requires 0 <= j < |s|
    requires !IsDigit(s[j]) && s[j] != '.'
    requires j > 0 || (s[0] != '+' && s[0] != '-')
    ensures ParseFloat(s) == 0.0
  {
    var (negative, body) := SignAndBody(s);
    var k := if body == s then j else j - 1;
    assert 0 <= k < |body| && body[k] == s[j];
    var parts := Split(body, '.');
    JoinSplit(body, '.');
    if |parts| <= 2 {
      var whole := parts[0];
      var fraction := if |parts| == 2 then parts[1] else [];
      if AllDigits(whole) && AllDigits(fraction) {
        JoinedDigitsChars(parts, k);
      }
    }
  }

  // ---------------------------------------------------------------------------
  // strconv.FormatFloat(x, 'f', 2, 32)

  /**
   * The whole number of cents nearest to `x`, ties going to the even
   * neighbour, as the exact-decimal rounding of `FormatFloat` does.
   */
  function RoundCents(x: real): (c: nat)
    requires x >= 0.0
    ensures c as real - 0.5 <= x * 100.0 <= c as real + 0.5
  {
    var f := (x * 100.0).Floor;
    var rest := x * 100.0 - f as real;
    if rest > 0.5 then f + 1
    else if rest < 0.5 then f
    else if f % 2 == 0 then f
    else f + 1
  }

  /** The two digits of the cents part. */
  function CentsText(c: nat): string
    requires c < 100
  {
    [DigitChar(c / 10), DigitChar(c % 10)]
  }

  /** `x` with exactly two decimals, and a minus sign when `x` is negative. */
  function FormatPrice(x: real): string
  {
    var c := RoundCents(if x < 0.0 then -x else x);
    (if x < 0.0 then "-" else "") + NatText(c / 100) + "." + CentsText(c % 100)
  }

  /**
   * The price text has exactly two digits after its point, a minus sign
   * exactly when the price is negative, and no character other than digits,
   * the point and that sign.
   */
  lemma FormatPriceShape(x: real)
    ensures var s := FormatPrice(x);
      && |s| >= 4 && s[|s| - 3] == '.' && IsDigit(s[|s| - 2]) && IsDigit(s[|s| - 1])
      && (s[0] == '-' <==> x < 0.0)
      && forall i :: 0 <= i < |s| ==> IsDigit(s[i]) || s[i] == '.' || s[i] == '-'
  {
    var c := RoundCents(if x < 0.0 then -x else x);
    var whole := NatText(c / 100);
    NatTextDenotes(c / 100);
    assert IsDigit(whole[0]);
  }

  /** A price text behind a prefix without ':' holds no ':'. */
  lemma PriceHasNoColon(prefix: string, x: real)
    requires ':' !in prefix
    ensures ':' !in prefix + FormatPrice(x)
  {
    FormatPriceShape(x);
  }

  /** The cents text denotes the cents. */
  lemma CentsTextValue(c: nat)
    requires c < 100
    ensures AllDigits(CentsText(c)) && DigitsValue(CentsText(c)) == c
  {
    var t := CentsText(c);
    assert t[..1] == [DigitChar(c / 10)];
    assert t[..1][..0] == [];
    assert DigitsValue(t[..1]) == c / 10;
    assert DigitValue(t[1]) == c % 10;
  }

  /** A well-formed `digits.digits` reads as the number it denotes. */
  lemma ParseUnsignedDecimal(whole: string, fraction: string)
    requires AllDigits(whole) && AllDigits(fraction) && |whole| + |fraction| > 0
    ensures ParseUnsigned(whole + "." + fraction)
      == DigitsValue(whole) as real + DigitsValue(fraction) as real / Pow10(|fraction|) as real
  {
    DigitsHaveNoDot(whole);
    DigitsHaveNoDot(fraction);
    SplitAfterPiece(whole, '.', fraction);
    SplitWhole(fraction, '.');
    assert Split(whole + "." + fraction, '.') == [whole, fraction];
  }

  /** A leading sign is taken off and negates what the rest reads as. */
  lemma ParseFloatSigned(negative: bool, body: string)
    requires |body| > 0 && body[0] != '+' && body[0] != '-'
    ensures ParseFloat((if negative then "-" else "") + body)
      == if negative then -ParseUnsigned(body) else ParseUnsigned(body)
  {
    var text := (if negative then "-" else "") + body;
    if negative {
      assert text[0] == '-' && text[1..] == body;
    } else {
      assert text == body;
    }
  }

  /**
   * A well-formed decimal `[-]digits.digits` reads as the number it denotes;
   * either side of the point may be empty, but not both.
   */
  lemma ParseFloatDecimal(negative: bool, whole: string, fraction: string)
    requires AllDigits(whole) && AllDigits(fraction) && |whole| + |fraction| > 0
    ensures var magnitude := DigitsValue(whole) as real + DigitsValue(fraction) as real / Pow10(|fraction|) as real;
      ParseFloat((if negative then "-" else "") + (whole + "." + fraction)) == if negative then -magnitude else magnitude
  {
    assert (whole + "." + fraction)[0] == if whole == [] then '.' else whole[0];
    ParseFloatSigned(negative, whole + "." + fraction);
    ParseUnsignedDecimal(whole, fraction);
  }

  /**
   * The two-decimal rendering reads back as the price rounded to the cent:
   * never more than half a cent away from the price it renders.
   */
  lemma ParseFloatFormatPrice(x: real)
    ensures var back := ParseFloat(FormatPrice(x));
      back == (if x < 0.0 then -1.0 else 1.0) * RoundCents(if x < 0.0 then -x else x) as real / 100.0
    ensures -0.005 <= ParseFloat(FormatPrice(x)) - x <= 0.005
  {
    var c := RoundCents(if x < 0.0 then -x else x);
    var whole, cents := NatText(c / 100), CentsText(c % 100);
    NatTextDenotes(c / 100);
    CentsTextValue(c % 100);
    ParseFloatDecimal(x < 0.0, whole, cents);
    assert FormatPrice(x) == (if x < 0.0 then "-" else "") + (whole + "." + cents);
    CentsMagnitude(c);
    CentsWithinHalf(x);
  }

  /** Whole units and two-digit cents make up the amount in cents. */
  lemma CentsMagnitude(c: nat)
    ensures (c / 100) as real + (c % 100) as real / Pow10(2) as real == c as real / 100.0
  {
    assert Pow10(2) == 100;
  }

  /** Rounding to the cent moves an amount by at most half a cent. */
  lemma CentsWithinHalf(x: real)
    ensures var c := RoundCents(if x < 0.0 then -x else x) as real / 100.0;
      -0.005 <= (if x < 0.0 then -1.0 else 1.0) * c - x <= 0.005
  {
  }
}
