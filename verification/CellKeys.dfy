/** Decimal text and the strict "x,y" keys of grid cells. */
module CellKeys {

  datatype Cell = Cell(x: int, y: int)

  datatype Parsed = Key(cell: Cell) | Malformed | OutOfRange

  const COORDINATE_MIN: int := -0x8000_0000
  const COORDINATE_MAX: int := 0x7fff_ffff

  function Abs(n: int): nat {
    if n < 0 then -n else n
  }

  function Manhattan(a: Cell, b: Cell): nat {
    Abs(a.x - b.x) + Abs(a.y - b.y)
  }

  predicate InRange(c: Cell) {
    && COORDINATE_MIN <= c.x <= COORDINATE_MAX
    && COORDINATE_MIN <= c.y <= COORDINATE_MAX
  }

  // ----- decimal text ---------------------------------------------------------------------

  predicate IsDigit(ch: char) {
    '0' <= ch <= '9'
  }

  function Digit(d: nat): char
    requires d < 10
  {
    '0' + d as char
  }

  function DigitValue(ch: char): (d: nat)
    requires IsDigit(ch)
    ensures d < 10 && Digit(d) == ch
  {
    (ch - '0') as nat
  }

  predicate AllDigits(s: string) {
    forall i | 0 <= i < |s| :: IsDigit(s[i])
  }

  /** Decimal digits without leading zeros. */
  function Digits(n: nat): (s: string)
    ensures s != [] && AllDigits(s)
    ensures s[0] == '0' ==> s == "0"
    ensures n > 0 ==> s[0] != '0'
  {
    if n < 10 then [Digit(n)] else Digits(n / 10) + [Digit(n % 10)]
  }

  function DigitsValue(s: string): nat
    requires AllDigits(s)
  {
    if s == [] then 0 else 10 * DigitsValue(s[..|s| - 1]) + DigitValue(s[|s| - 1])
  }

  lemma {:induction false} DigitsRoundTrip(n: nat)
    ensures DigitsValue(Digits(n)) == n
  {
    if n < 10 {
      assert Digits(n)[..0] == [];
    } else {
      DigitsRoundTrip(n / 10);
      assert Digits(n)[..|Digits(n)| - 1] == Digits(n / 10);
    }
  }

  /** Text without leading zeros is the text of its value. */
  lemma {:induction false} DigitsCanonical(s: string)
    requires s != [] && AllDigits(s) && (s[0] == '0' ==> |s| == 1)
    ensures Digits(DigitsValue(s)) == s
    ensures s[0] != '0' ==> DigitsValue(s) > 0
  {
    var front := s[..|s| - 1];
    assert s == front + [s[|s| - 1]];
    if |s| > 1 {
      DigitsCanonical(front);
    } else {
      assert DigitsValue(front) == 0;
    }
  }

  /** The text Python's `str` gives an integer. */
  function Decimal(n: int): string {
    if n < 0 then "-" + Digits(-n) else Digits(n)
  }

  /** The grammar `0|-?[1-9][0-9]*`. */
  predicate IsDecimal(s: string) {
    s == "0" || IsPositive(s) || (s != [] && s[0] == '-' && IsPositive(s[1..]))
  }

  predicate IsPositive(s: string) {
    s != [] && AllDigits(s) && s[0] != '0'
  }

  function DecimalValue(s: string): int
    requires IsDecimal(s)
  {
    if s[0] == '-' then -(DigitsValue(s[1..]) as int) else DigitsValue(s)
  }

  lemma DecimalRoundTrip(n: int)
    ensures IsDecimal(Decimal(n)) && DecimalValue(Decimal(n)) == n
  {
    DigitsRoundTrip(if n < 0 then -n else n);
    if n < 0 {
      assert Decimal(n)[1..] == Digits(-n);
    }
  }

  lemma DecimalCanonical(s: string)
    requires IsDecimal(s)
    ensures Decimal(DecimalValue(s)) == s
  {
    if s[0] == '-' {
      DigitsCanonical(s[1..]);
    } else {
      DigitsCanonical(s);
    }
  }

  lemma DecimalInjective(m: int, n: int)
    requires Decimal(m) == Decimal(n)
    ensures m == n
  {
    DecimalRoundTrip(m);
    DecimalRoundTrip(n);
  }

  // ----- cell keys ------------------------------------------------------------------------

  function Format(c: Cell): string {
    Decimal(c.x) + "," + Decimal(c.y)
  }

  function FirstComma(s: string): (i: nat)
    ensures i <= |s| && (forall k | 0 <= k < i :: s[k] != ',') && (i < |s| ==> s[i] == ',')
  {
    if s == [] || s[0] == ',' then 0 else 1 + FirstComma(s[1..])
  }

  function Parse(s: string): Parsed {
    var i := FirstComma(s);
    if i == |s| || !IsDecimal(s[..i]) || !IsDecimal(s[i + 1..]) then Malformed
    else
      var c := Cell(DecimalValue(s[..i]), DecimalValue(s[i + 1..]));
      if InRange(c) then Key(c) else OutOfRange
  }

  lemma FormatSplits(c: Cell)
    ensures var s, i := Format(c), |Decimal(c.x)|;
            FirstComma(s) == i && s[..i] == Decimal(c.x) && s[i + 1..] == Decimal(c.y)
  {
    var s, i := Format(c), |Decimal(c.x)|;
    forall k | 0 <= k < i
      ensures s[k] != ','
    {
      assert s[k] == Decimal(c.x)[k];
      if c.x < 0 && k > 0 {
        assert s[k] == Digits(-c.x)[k - 1];
      }
    }
    assert s[i] == ',';
  }

  /** A formatted coordinate parses back to itself. */
  lemma FormatThenParse(c: Cell)
    ensures Parse(Format(c)) == if InRange(c) then Key(c) else OutOfRange
  {
    FormatSplits(c);
    DecimalRoundTrip(c.x);
    DecimalRoundTrip(c.y);
  }

  /** Parsing accepts exactly the strings that formatting emits. */
  lemma ParseThenFormat(s: string)
    ensures Parse(s).Key? ==> InRange(Parse(s).cell) && Format(Parse(s).cell) == s
    ensures !Parse(s).Key? ==> forall c | InRange(c) :: Format(c) != s
  {
    if Parse(s).Key? {
      var i := FirstComma(s);
      DecimalCanonical(s[..i]);
      DecimalCanonical(s[i + 1..]);
      assert s == s[..i] + "," + s[i + 1..];
    }
    forall c | InRange(c)
      ensures Format(c) == s ==> Parse(s).Key?
    {
      FormatThenParse(c);
    }
  }

  lemma FormatInjective(c: Cell, d: Cell)
    requires Format(c) == Format(d)
    ensures c == d
  {
    FormatSplits(c);
    FormatSplits(d);
    DecimalInjective(c.x, d.x);
    DecimalInjective(c.y, d.y);
  }
}
