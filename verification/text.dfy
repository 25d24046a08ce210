/** Character and string helpers of the assembler (parser.c:10-52) and the decimal conversions
    it relies on (`atoi`, and the line number printed in error messages). Characters follow the
    C locale: `isspace` is space, tab, newline, vertical tab, form feed and carriage return. */
module Text {

  /** `isspace` in the C locale. */
  predicate IsSpace(c: char)
  {
    c == ' ' || c == '\t' || c == '\n' || c == '\U{B}' || c == '\U{C}' || c == '\r'
  }

  /** `isdigit`. */
  predicate IsDigit(c: char)
  {
    '0' <= c <= '9'
  }

  /** The characters `%s` reads. */
  predicate NotSpace(c: char)
  {
    !IsSpace(c)
  }

  /** The characters `%[^,]` reads. */
  predicate NotComma(c: char)
  {
    c != ','
  }

  /** `toupper` in the C locale. */
  function ToUpper(c: char): (u: char)
    ensures 'a' <= c <= 'z' ==> u as int == c as int - 32
    ensures !('a' <= c <= 'z') ==> u == c
  {
    if 'a' <= c <= 'z' then (c as int - 32) as char else c
  }

  /** Upper-cases every character of `s`. */
  function Upper(s: string): (u: string)
    ensures |u| == |s|
    ensures forall k :: 0 <= k < |s| ==> u[k] == ToUpper(s[k])
  {
    seq(|s|, k requires 0 <= k < |s| => ToUpper(s[k]))
  }

  /** Length of the longest prefix of `s` whose characters all satisfy `p`. */
  function Span(s: string, p: char -> bool): (n: nat)
    ensures n <= |s|
    ensures forall k :: 0 <= k < n ==> p(s[k])
    ensures n < |s| ==> !p(s[n])
    decreases |s|
  {
    if |s| == 0 || !p(s[0]) then 0 else 1 + Span(s[1..], p)
  }

  /** A comment marker `//` starts at index `i` of `s`. */
  predicate CommentAt(s: string, i: int)
  {
    0 <= i && i + 1 < |s| && s[i] == '/' && s[i + 1] == '/'
  }

  /** Index of the first `//` in `s`, or `|s|` when there is none (`strstr(line, "//")`). */
  function CommentStart(s: string): (i: nat)
    ensures i <= |s|
    ensures forall j :: 0 <= j < i ==> !CommentAt(s, j)
    ensures i < |s| ==> CommentAt(s, i)
    decreases |s|
  {
    if |s| < 2 then |s|
    else if s[0] == '/' && s[1] == '/' then 0
    else
      var i := 1 + CommentStart(s[1..]);
      assert forall j :: 1 <= j < |s| ==> (CommentAt(s, j) <==> CommentAt(s[1..], j - 1));
      i
  }

  /** The line with everything from the first `//` on discarded (parser.c:67-71). */
  function StripComment(s: string): (r: string)
    ensures r <= s
    ensures forall j :: 0 <= j < |r| ==> !CommentAt(s, j)
    ensures |r| < |s| ==> CommentAt(s, |r|)
  {
    s[..CommentStart(s)]
  }

  /** Index one past the last non-space character of `s` (0 when there is none). */
  function TrailingStart(s: string): (j: nat)
    ensures j <= |s|
    ensures forall k :: j <= k < |s| ==> IsSpace(s[k])
    ensures j > 0 ==> !IsSpace(s[j - 1])
    decreases |s|
  {
    if |s| == 0 then 0
    else if IsSpace(s[|s| - 1]) then TrailingStart(s[..|s| - 1])
    else |s|
  }

  /** `s[i..j]` is `s` with all leading and all trailing white space dropped. */
  predicate TrimmedAt(s: string, i: int, j: int)
  {
    && 0 <= i <= j <= |s|
    && (forall k :: 0 <= k < i ==> IsSpace(s[k]))
    && (forall k :: j <= k < |s| ==> IsSpace(s[k]))
    && (i < j ==> !IsSpace(s[i]) && !IsSpace(s[j - 1]))
  }

  /** The leading white space run and the trailing one delimit the trimmed slice. */
  lemma TrimBounds(s: string)
    ensures TrimmedAt(s, Span(s, IsSpace), Span(s, IsSpace) + TrailingStart(s[Span(s, IsSpace)..]))
  {
    var i := Span(s, IsSpace);
    var rest := s[i..];
    var j := TrailingStart(rest);
    forall k | i + j <= k < |s| ensures IsSpace(s[k]) {
      assert rest[k - i] == s[k];
    }
    if j > 0 {
      assert rest[0] == s[i];
      assert rest[j - 1] == s[i + j - 1];
    }
  }

  /** `trim_whitespace`: the slice of `s` left after dropping all white space on either side. */
  function Trim(s: string): (r: string)
    ensures exists i, j :: TrimmedAt(s, i, j) && r == s[i..j]
    ensures |r| > 0 ==> !IsSpace(r[0]) && !IsSpace(r[|r| - 1])
    ensures |r| == 0 <==> forall k :: 0 <= k < |s| ==> IsSpace(s[k])
  {
    var i := Span(s, IsSpace);
    var j := i + TrailingStart(s[i..]);
    TrimBounds(s);
    s[i..j]
  }

  /** Trimming is idempotent. */
  lemma TrimIdempotent(s: string)
    ensures Trim(Trim(s)) == Trim(s)
  {
    var t := Trim(s);
    if |t| > 0 {
      assert Span(t, IsSpace) == 0;
      assert TrailingStart(t) == |t|;
      assert t[0..] == t;
    } else {
      assert Span(t, IsSpace) == 0;
    }
  }

  /** Every character of `s` is a decimal digit. */
  predicate AllDigits(s: string)
  {
    forall k :: 0 <= k < |s| ==> IsDigit(s[k])
  }

  /** The assembler's `is_number`: non-empty, an optional leading '-', then digits only. */
  function IsNumber(s: string): (b: bool)
    ensures b <==> |s| > 0 && forall k :: 0 <= k < |s| ==> IsDigit(s[k]) || (k == 0 && s[k] == '-')
  {
    |s| > 0 && AllDigits(if s[0] == '-' then s[1..] else s)
  }

  /** The number the lone string "-" is accepted as a number (a quirk of `is_number`). */
  lemma LoneMinusIsNumber()
    ensures IsNumber("-") && Atoi("-") == 0
    ensures !IsNumber("")
  {
  }

  /** Value of a digit character. */
  function DigitValue(c: char): (d: nat)
    requires IsDigit(c)
    ensures d < 10
  {
    c as int - '0' as int
  }

  /** The character of a digit value. */
  function DigitChar(d: nat): (c: char)
    requires d < 10
    ensures IsDigit(c) && DigitValue(c) == d
  {
    ('0' as int + d) as char
  }

  /** Ten to the power `n`. */
  function Pow10(n: nat): (p: nat)
    ensures p >= 1
  {
    if n == 0 then 1 else 10 * Pow10(n - 1)
  }

  /** Decimal value of a string of digits, most significant first (the empty string is 0):
      `n` digits are worth less than ten to the `n`. */
  function DigitsValue(s: string): (v: nat)
    requires AllDigits(s)
    ensures v < Pow10(|s|)
    decreases |s|
  {
    if |s| == 0 then 0 else 10 * DigitsValue(s[..|s| - 1]) + DigitValue(s[|s| - 1])
  }

  /** `atoi` on a string `is_number` accepted: the signed decimal value ("-" reads as 0). */
  function Atoi(s: string): (v: int)
    requires IsNumber(s)
    ensures -(Pow10(|s| - 1) as int) < v < Pow10(|s|)
    ensures v < 0 ==> s[0] == '-'
  {
    if s[0] == '-' then -(DigitsValue(s[1..]) as int) else DigitsValue(s)
  }

  /** Decimal rendering of a natural number (the `%d` of the error messages). */
  function Decimal(n: nat): (s: string)
    ensures |s| > 0 && AllDigits(s)
    ensures |s| > 1 ==> s[0] != '0'
    decreases n
  {
    if n < 10 then [DigitChar(n)] else Decimal(n / 10) + [DigitChar(n % 10)]
  }

  /** Reading back a rendered number gives the number: `atoi` inverts `%d`. */
  lemma {:induction false} DecimalRoundTrip(n: nat)
    ensures IsNumber(Decimal(n))
    ensures Atoi(Decimal(n)) == n
    decreases n
  {
    var s := Decimal(n);
    if n >= 10 {
      DecimalRoundTrip(n / 10);
      assert s[..|s| - 1] == Decimal(n / 10);
      assert DigitsValue(s) == 10 * DigitsValue(Decimal(n / 10)) + n % 10;
    }
  }

  /** Digits that start with a non-zero digit are worth at least one. */
  lemma {:induction false} LeadingDigitCounts(s: string)
    requires |s| > 0 && AllDigits(s) && s[0] != '0'
    ensures DigitsValue(s) >= 1
    decreases |s|
  {
    if |s| > 1 {
      LeadingDigitCounts(s[..|s| - 1]);
    }
  }

  /** The other direction of the round trip: a digit string without leading zeros is the
      `%d` spelling of the value `atoi` reads from it. */
  lemma {:induction false} AtoiDecimal(s: string)
    requires |s| > 0 && AllDigits(s) && (|s| > 1 ==> s[0] != '0')
    ensures IsNumber(s)
    ensures Decimal(Atoi(s)) == s
    decreases |s|
  {
    var n := Atoi(s);
    var last := s[|s| - 1];
    if |s| == 1 {
      assert DigitChar(DigitValue(last)) == last;
      assert s == [last];
    } else {
      var p := s[..|s| - 1];
      LeadingDigitCounts(p);
      AtoiDecimal(p);
      assert n == 10 * DigitsValue(p) + DigitValue(last);
      assert n / 10 == DigitsValue(p) && n % 10 == DigitValue(last);
      assert DigitChar(DigitValue(last)) == last;
      assert s == p + [last];
    }
  }

  /** A leading zero adds nothing to the value of digits. */
  lemma {:induction false} LeadingZeroDigits(s: string)
    requires AllDigits(s)
    ensures AllDigits("0" + s) && DigitsValue("0" + s) == DigitsValue(s)
    decreases |s|
  {
    if |s| > 0 {
      var p := s[..|s| - 1];
      LeadingZeroDigits(p);
      assert ("0" + s)[..|s|] == "0" + p;
    }
  }

  /** `atoi` ignores leading zeros: "007" reads as 7. */
  lemma AtoiLeadingZero(s: string)
    requires |s| > 0 && AllDigits(s)
    ensures IsNumber(s) && IsNumber("0" + s)
    ensures Atoi("0" + s) == Atoi(s)
  {
    LeadingZeroDigits(s);
  }

  /** A minus sign negates the value of the digits after it. */
  lemma AtoiNegate(s: string)
    requires |s| > 0 && AllDigits(s)
    ensures IsNumber(s) && IsNumber("-" + s)
    ensures Atoi("-" + s) == -Atoi(s)
  {
    assert ("-" + s)[1..] == s;
  }

  /** Reading back a rendered number after a minus sign gives its negation. */
  lemma AtoiNegative(n: nat)
    ensures IsNumber("-" + Decimal(n))
    ensures Atoi("-" + Decimal(n)) == -(n as int)
  {
    DecimalRoundTrip(n);
    AtoiNegate(Decimal(n));
  }

  /** A character other than the NUL byte that ends a C string. */
  predicate NotNul(c: char)
  {
    c != '\0'
  }

  /** What C's string functions see of a buffer: everything before its first NUL byte. */
  function CString(s: string): (r: string)
    ensures r <= s
    ensures forall k :: 0 <= k < |r| ==> r[k] != '\0'
    ensures |r| < |s| ==> s[|r|] == '\0'
  {
    s[..Span(s, NotNul)]
  }

  /** A string without a NUL byte is read whole. */
  lemma CStringWhole(s: string)
    requires forall k :: 0 <= k < |s| ==> s[k] != '\0'
    ensures CString(s) == s
  {
  }
}
