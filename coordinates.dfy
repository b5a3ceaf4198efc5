/** Turning a typed coordinate such as "B5" into a zero-based (row, col) pair,
    with the text primitives of Python's `str` that the parser relies on. */
module Coordinates {

  /** Python's `str.isspace()` for one character: the characters that
      `str.strip()` with no argument removes. */
  predicate IsSpace(c: char) {
    || '\t' <= c <= '\r'
    || '\U{1c}' <= c <= '\U{1f}'
    || c == ' '
    || c == '\U{85}'
    || c == '\U{a0}'
    || c == '\U{1680}'
    || '\U{2000}' <= c <= '\U{200a}'
    || c == '\U{2028}'
    || c == '\U{2029}'
    || c == '\U{202f}'
    || c == '\U{205f}'
    || c == '\U{3000}'
  }

  /** `s.lstrip()`: drops the leading white space. */
  function TrimStart(s: string): (t: string)
    ensures t == [] || !IsSpace(t[0])
  {
    if s != [] && IsSpace(s[0]) then TrimStart(s[1..]) else s
  }

  /** `s.rstrip()`: drops the trailing white space. */
  function TrimEnd(s: string): (t: string)
    ensures t == [] || !IsSpace(t[|t| - 1])
  {
    if s != [] && IsSpace(s[|s| - 1]) then TrimEnd(s[..|s| - 1]) else s
  }

  /** `lstrip()` removes a prefix of white space and nothing else. */
  lemma {:induction false} TrimStartDropsSpace(s: string)
    ensures |TrimStart(s)| <= |s| && TrimStart(s) == s[|s| - |TrimStart(s)|..]
    ensures forall i :: 0 <= i < |s| - |TrimStart(s)| ==> IsSpace(s[i])
  {
    if s != [] && IsSpace(s[0]) {
      TrimStartDropsSpace(s[1..]);
    }
  }

  /** `rstrip()` removes a suffix of white space and nothing else. */
  lemma {:induction false} TrimEndDropsSpace(s: string)
    ensures |TrimEnd(s)| <= |s| && TrimEnd(s) == s[..|TrimEnd(s)|]
    ensures forall i :: |TrimEnd(s)| <= i < |s| ==> IsSpace(s[i])
  {
    if s != [] && IsSpace(s[|s| - 1]) {
      TrimEndDropsSpace(s[..|s| - 1]);
    }
  }

  /** `s.strip()`. */
  function Strip(s: string): string {
    TrimEnd(TrimStart(s))
  }

  /** Python's `upper()` on one character, as far as it can matter to the
      parser: the ASCII letters, and the dotless i, whose capital is 'I'. */
  function UpperChar(c: char): char {
    if 'a' <= c <= 'z' then (c as int - 32) as char
    else if c == '\U{131}' then 'I'
    else c
  }

  /** Python's `lower()` on one character, for the ASCII letters. */
  function LowerChar(c: char): char {
    if 'A' <= c <= 'Z' then (c as int + 32) as char else c
  }

  function Upper(s: string): (t: string)
    ensures |t| == |s| && forall i :: 0 <= i < |s| ==> t[i] == UpperChar(s[i])
  {
    seq(|s|, i requires 0 <= i < |s| => UpperChar(s[i]))
  }

  function Lower(s: string): (t: string)
    ensures |t| == |s| && forall i :: 0 <= i < |s| ==> t[i] == LowerChar(s[i])
  {
    seq(|s|, i requires 0 <= i < |s| => LowerChar(s[i]))
  }

  predicate IsDigit(c: char) {
    '0' <= c <= '9'
  }

  /** Python's `isdigit()` on a string of ASCII characters: non-empty, and
      every character a digit. */
  predicate AllDigits(d: string) {
    |d| > 0 && forall i :: 0 <= i < |d| ==> IsDigit(d[i])
  }

  function DigitValue(c: char): nat
    requires IsDigit(c)
  {
    c as int - '0' as int
  }

  /** `int(d)` for a string of decimal digits, leading zeros allowed. */
  function DecimalValue(d: string): nat
    requires forall i :: 0 <= i < |d| ==> IsDigit(d[i])
  {
    if d == [] then 0
    else
      assert IsDigit(d[|d| - 1]);
      10 * DecimalValue(d[..|d| - 1]) + DigitValue(d[|d| - 1])
  }

  /** `str(n)`: the decimal numeral of n, without leading zeros. */
  function Decimal(n: nat): (d: string)
    ensures AllDigits(d)
    ensures d[0] != '0' || n == 0
  {
    if n < 10 then [('0' as int + n) as char]
    else Decimal(n / 10) + [('0' as int + n % 10) as char]
  }

  /** The row and column labels a board printout gives the cell (row, col):
      a capital letter from 'A' and the 1-based column number. */
  function Format(row: nat, col: nat): string
    requires row < 26
  {
    [('A' as int + row) as char] + Decimal(col + 1)
  }

  /** Why a coordinate was refused; each reason has its own notice. */
  datatype Diagnostic = RowNotLetter | ColumnNotDigits | ColumnOutOfRange

  /** What parsing produces: a zero-based coordinate, a refusal, or, when the
      text is empty once stripped, the IndexError of reading its first
      character. */
  datatype Parsed = Ok(row: nat, col: nat) | Invalid(reason: Diagnostic) | EmptyInput

  /** Parses a coordinate the way the game does: strip, upper-case, take the
      first character as a row letter 'A'..'K' and the rest, stripped again,
      as a column number 1..11. A string shorter than two characters only
      draws a notice; it is refused or raises further on. */
  function ParseCoordinate(s: string): (r: Parsed)
    ensures r.Ok? ==> r.row <= 10 && r.col <= 10
    ensures r.EmptyInput? <==> Strip(s) == []
  {
    var text := Upper(Strip(s));
    if text == [] then EmptyInput else ParseLabel(text[0], Strip(text[1..]))
  }

  /** The checks on the upper-cased row letter and the stripped column text. */
  function ParseLabel(letter: char, digits: string): (r: Parsed)
    ensures r.Ok? <==> 'A' <= letter <= 'K' && AllDigits(digits) && 1 <= DecimalValue(digits) <= 11
    ensures r.Ok? ==> r.row < 11 && "ABCDEFGHIJK"[r.row] == letter && r.col + 1 == DecimalValue(digits)
    ensures r.Ok? ==> r.row <= 10 && r.col <= 10
    ensures r == Invalid(RowNotLetter) <==> !('A' <= letter <= 'K')
    ensures !r.EmptyInput?
  {
    if !('A' <= letter <= 'K') then Invalid(RowNotLetter)
    else if !AllDigits(digits) then Invalid(ColumnNotDigits)
    else
      var n := DecimalValue(digits);
      if !(1 <= n <= 11) then Invalid(ColumnOutOfRange)
      else Ok(letter as int - 'A' as int, n - 1)
  }

  /** Reading back the numeral of n gives n. */
  lemma {:induction false} DecimalRoundTrip(n: nat)
    ensures DecimalValue(Decimal(n)) == n
  {
    if n >= 10 {
      var d := Decimal(n);
      assert d[..|d| - 1] == Decimal(n / 10);
      DecimalRoundTrip(n / 10);
    }
  }

  /** A string none of whose characters is white space is its own strip. */
  lemma StripNoSpace(s: string)
    requires forall i :: 0 <= i < |s| ==> !IsSpace(s[i])
    ensures Strip(s) == s
  {
  }

  /** Every cell label a printout shows parses back to that cell, for every
      row 'A'..'K' and column 1..11 the parser accepts. */
  lemma FormatRoundTrip(row: nat, col: nat)
    requires row <= 10 && col <= 10
    ensures ParseCoordinate(Format(row, col)) == Ok(row, col)
  {
    FormatIsCanonical(row, col);
    ColumnIsCanonical(row, col);
    LabelRoundTrip(row, col);
  }

  /** A printed label is already stripped and in capitals. */
  lemma FormatIsCanonical(row: nat, col: nat)
    requires row <= 10
    ensures Strip(Format(row, col)) == Format(row, col)
    ensures Upper(Format(row, col)) == Format(row, col)
  {
    var s := Format(row, col);
    assert forall i :: 0 <= i < |s| ==> !IsSpace(s[i]);
    StripNoSpace(s);
  }

  /** The column part of a printed label is its own strip. */
  lemma ColumnIsCanonical(row: nat, col: nat)
    requires row <= 10
    ensures Format(row, col)[1..] == Decimal(col + 1)
    ensures Strip(Decimal(col + 1)) == Decimal(col + 1)
  {
    StripNoSpace(Decimal(col + 1));
  }

  lemma LabelRoundTrip(row: nat, col: nat)
    requires row <= 10 && col <= 10
    ensures ParseLabel(('A' as int + row) as char, Decimal(col + 1)) == Ok(row, col)
  {
    DecimalRoundTrip(col + 1);
  }

  /** Stripping commutes with lower-casing: no white space is a letter. */
  lemma {:induction false} StripLower(s: string)
    ensures Strip(Lower(s)) == Lower(Strip(s))
  {
    TrimStartLower(s);
    TrimEndLower(TrimStart(s));
  }

  lemma {:induction false} TrimStartLower(s: string)
    ensures TrimStart(Lower(s)) == Lower(TrimStart(s))
  {
    if s != [] {
      assert Lower(s)[1..] == Lower(s[1..]);
      TrimStartLower(s[1..]);
    }
  }

  lemma {:induction false} TrimEndLower(s: string)
    ensures TrimEnd(Lower(s)) == Lower(TrimEnd(s))
  {
    if s != [] {
      assert Lower(s)[..|s| - 1] == Lower(s[..|s| - 1]);
      TrimEndLower(s[..|s| - 1]);
    }
  }

  /** Parsing is case-insensitive: lower-casing the input changes nothing. */
  lemma ParseIgnoresCase(s: string)
    ensures ParseCoordinate(Lower(s)) == ParseCoordinate(s)
  {
    StripLower(s);
    var t := Strip(s);
    assert Upper(Lower(t)) == Upper(t);
  }

  /** A row letter followed by text whose first character is not a digit is
      refused for its column, whatever follows. */
  lemma NonNumericColumnRefused(s: string)
    requires |s| >= 2 && forall i :: 0 <= i < |s| ==> !IsSpace(s[i])
    requires 'A' <= UpperChar(s[0]) <= 'K' && !IsDigit(UpperChar(s[1]))
    ensures ParseCoordinate(s) == Invalid(ColumnNotDigits)
  {
    StripNoSpace(s);
    var rest := Upper(s)[1..];
    assert forall i :: 0 <= i < |rest| ==> rest[i] == UpperChar(s[i + 1]);
    StripNoSpace(rest);
    assert !IsDigit(rest[0]);
  }

  /** The examples of the parser's own documentation. */
  lemma ParseExamples()
    ensures ParseCoordinate("A1") == Ok(0, 0)
    ensures ParseCoordinate("C10") == Ok(2, 9)
    ensures ParseCoordinate("b5") == Ok(1, 4)
  {
    assert Format(0, 0) == "A1";
    FormatRoundTrip(0, 0);
    assert Decimal(10) == "10";
    assert Format(2, 9) == "C10";
    FormatRoundTrip(2, 9);
    assert Format(1, 4) == "B5";
    assert Lower("B5") == "b5";
    FormatRoundTrip(1, 4);
    ParseIgnoresCase("B5");
  }

  /** Row 'K' and column 11 are accepted, although they lie off a 10 by 10
      board. */
  lemma ParseAcceptsOffBoard()
    ensures ParseCoordinate("K1") == Ok(10, 0)
    ensures ParseCoordinate("A11") == Ok(0, 10)
  {
    assert Format(10, 0) == "K1";
    FormatRoundTrip(10, 0);
    assert Decimal(11) == "11";
    assert Format(0, 10) == "A11";
    FormatRoundTrip(0, 10);
  }
}
