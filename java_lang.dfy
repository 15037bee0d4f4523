/**
 * The behaviour of the few Java library calls the extension's core relies on, stated over
 * `string`: String.trim, String.split with a one-character class, indexOf / lastIndexOf,
 * substring, and the decimal-literal part of Double.parseDouble. Also the exceptions the
 * core can raise, as one datatype.
 */
module JavaLang {
  import opened Wrappers

  /** The exceptions raised by the modelled code, Java runtime ones and the extension's own. */
  datatype Exception =
    | NumberFormat(text: string)                      // Double.valueOf, new Double, Float.parseFloat
    | ArrayIndexOutOfBounds(index: int)               // an argument missing from a split argument list
    | StringIndexOutOfBounds(begin: int, end: int)    // String.substring with bounds out of order
    | UnsupportedClipShape(name: string)              // a clip-path child that is not a rect
    | UnsupportedOutputType(kind: string)             // an image type other than png, jpeg, mix
    | QualityWithoutType                              // -q given before -t
    | InvalidSizeUnit(unit: string)                   // a file size unit other than B, KB, MB, GB
    | EmptySubimage(width: int, height: int)          // BufferedImage.getSubimage of a non-positive size

  type Checked<T> = Result<T, Exception>

  // ---------------------------------------------------------------------------------------------
  // String.trim

  /** String.trim drops every leading and trailing character at or below U+0020. */
  function TrimLeading(s: string): (r: string)
    ensures r == [] || r[0] > ' '
  {
    if |s| > 0 && s[0] <= ' ' then TrimLeading(s[1..]) else s
  }

  function TrimTrailing(s: string): (r: string)
    ensures r <= s
    ensures r == [] || r[|r| - 1] > ' '
  {
    if |s| > 0 && s[|s| - 1] <= ' ' then TrimTrailing(s[..|s| - 1]) else s
  }

  function Trim(s: string): (r: string)
    ensures r == [] || (r[0] > ' ' && r[|r| - 1] > ' ')
  {
    TrimTrailing(TrimLeading(s))
  }

  /** A string made only of blanks trims to the empty string. */
  lemma {:induction false} TrimOfBlank(s: string)
    requires forall k :: 0 <= k < |s| ==> s[k] <= ' '
    ensures TrimLeading(s) == [] && Trim(s) == []
  {
    if |s| > 0 {
      TrimOfBlank(s[1..]);
    }
  }

  /** A string that neither starts nor ends with a blank is its own trim. */
  lemma TrimOfTrimmed(s: string)
    requires s == [] || (s[0] > ' ' && s[|s| - 1] > ' ')
    ensures Trim(s) == s
  {
  }

  // ---------------------------------------------------------------------------------------------
  // String.split

  /** The characters matched by the regular expression `\s`. */
  const RegexSpace: set<char> := {' ', '\t', '\n', '\U{0B}', '\U{0C}', '\r'}

  /** Every piece of `s` between two separators, empty pieces included. */
  function SplitAll(s: string, seps: set<char>): (r: seq<string>)
    ensures |r| >= 1
    ensures forall i, k :: 0 <= i < |r| && 0 <= k < |r[i]| ==> r[i][k] !in seps
  {
    if |s| == 0 then [""]
    else
      var rest := SplitAll(s[1..], seps);
      if s[0] in seps then [""] + rest
      else [[s[0]] + rest[0]] + rest[1..]
  }

  /** Splitting at a separator splits the pieces on either side independently. */
  lemma {:induction false} SplitAllAt(a: string, c: char, b: string, seps: set<char>)
    requires c in seps
    ensures SplitAll(a + [c] + b, seps) == SplitAll(a, seps) + SplitAll(b, seps)
  {
    if |a| == 0 {
      assert a + [c] + b == [c] + b;
      assert ([c] + b)[1..] == b;
    } else {
      assert (a + [c] + b)[1..] == a[1..] + [c] + b;
      SplitAllAt(a[1..], c, b, seps);
    }
  }

  /** A string with no separator is a single piece. */
  lemma {:induction false} SplitAllNone(s: string, seps: set<char>)
    requires forall k :: 0 <= k < |s| ==> s[k] !in seps
    ensures SplitAll(s, seps) == [s]
  {
    if |s| > 0 {
      SplitAllNone(s[1..], seps);
      assert [s[0]] + s[1..] == s;
    }
  }

  function DropTrailingEmpty(p: seq<string>): (r: seq<string>)
    ensures r <= p
    ensures r == [] || r[|r| - 1] != ""
    ensures forall k :: |r| <= k < |p| ==> p[k] == ""
  {
    if |p| > 0 && p[|p| - 1] == "" then DropTrailingEmpty(p[..|p| - 1]) else p
  }

  /**
   * String.split(regex) with a one-character class and no limit: the pieces with the trailing
   * empty ones dropped, except that a string the class never matches yields just itself
   * (so "" splits into [""], and "," on "," into []).
   */
  function Split(s: string, seps: set<char>): (r: seq<string>)
  {
    var pieces := SplitAll(s, seps);
    if |pieces| == 1 then pieces else DropTrailingEmpty(pieces)
  }

  // ---------------------------------------------------------------------------------------------
  // indexOf, lastIndexOf, substring

  /** String.indexOf(c): the first position holding `c`, or -1. */
  function IndexOf(s: string, c: char): (i: int)
    ensures -1 <= i < |s|
    ensures i >= 0 ==> s[i] == c && forall k :: 0 <= k < i ==> s[k] != c
    ensures i == -1 <==> c !in s
  {
    if |s| == 0 then -1
    else if s[0] == c then 0
    else
      var j := IndexOf(s[1..], c);
      if j < 0 then -1 else j + 1
  }

  /** String.lastIndexOf(c): the last position holding `c`, or -1. */
  function LastIndexOf(s: string, c: char): (i: int)
    ensures -1 <= i < |s|
    ensures i >= 0 ==> s[i] == c && forall k :: i < k < |s| ==> s[k] != c
    ensures i == -1 <==> c !in s
  {
    if |s| == 0 then -1
    else if s[|s| - 1] == c then |s| - 1
    else LastIndexOf(s[..|s| - 1], c)
  }

  /** The first position holding a character of `cs`, or -1. */
  function IndexOfAny(s: string, cs: set<char>): (i: int)
    ensures -1 <= i < |s|
    ensures i >= 0 ==> s[i] in cs && forall k :: 0 <= k < i ==> s[k] !in cs
    ensures i == -1 <==> forall k :: 0 <= k < |s| ==> s[k] !in cs
  {
    if |s| == 0 then -1
    else if s[0] in cs then 0
    else
      var j := IndexOfAny(s[1..], cs);
      if j < 0 then -1 else j + 1
  }

  /** The first position holding `c` is the one with no `c` before it. */
  lemma IndexOfIs(s: string, c: char, k: nat)
    requires k < |s| && s[k] == c && forall j :: 0 <= j < k ==> s[j] != c
    ensures IndexOf(s, c) == k
  {
    assert s[k] == c;
  }

  /** The last position holding `c` is the one with no `c` after it. */
  lemma LastIndexOfIs(s: string, c: char, k: nat)
    requires k < |s| && s[k] == c && forall j :: k < j < |s| ==> s[j] != c
    ensures LastIndexOf(s, c) == k
  {
    assert s[k] == c;
  }

  /** String.substring(begin, end), which throws unless 0 <= begin <= end <= length. */
  function Substring(s: string, begin: int, end: int): Checked<string>
  {
    if 0 <= begin <= end <= |s| then Ok(s[begin..end]) else Err(StringIndexOutOfBounds(begin, end))
  }

  // ---------------------------------------------------------------------------------------------
  // Decimal digits and Double.parseDouble

  predicate IsDigit(c: char) {
    '0' <= c <= '9'
  }

  predicate AllDigits(s: string) {
    forall k :: 0 <= k < |s| ==> IsDigit(s[k])
  }

  function DigitValue(c: char): nat
    requires IsDigit(c)
  {
    c as int - '0' as int
  }

  /** The number a string of decimal digits denotes (0 for the empty string). */
  function DigitsValue(s: string): nat
    requires AllDigits(s)
  {
    if s == [] then 0 else DigitsValue(s[..|s| - 1]) * 10 + DigitValue(s[|s| - 1])
  }

  function Pow10(n: nat): (r: nat)
    ensures r >= 1
  {
    if n == 0 then 1 else 10 * Pow10(n - 1)
  }

  /** m · 10^x. */
  function Scale10(m: real, x: int): real {
    if x >= 0 then m * Pow10(x) as real else m / Pow10(-x) as real
  }

  /** Digits with at most one decimal point and at least one digit: "12", "1.5", ".5", "3." */
  function ParseMantissa(m: string): Option<real> {
    var p := IndexOf(m, '.');
    if p < 0 then
      if |m| > 0 && AllDigits(m) then Some(DigitsValue(m) as real) else None
    else
      var whole, frac := m[..p], m[p + 1..];
      if |whole| + |frac| > 0 && AllDigits(whole) && AllDigits(frac)
      then Some(DigitsValue(whole + frac) as real / Pow10(|frac|) as real)
      else None
  }

  /** The part after `e`: an optional sign and at least one digit. */
  function ParseExponent(x: string): Option<int> {
    if |x| > 0 && (x[0] == '-' || x[0] == '+') then
      if |x| > 1 && AllDigits(x[1..])
      then
        var v: int := DigitsValue(x[1..]);
        Some(if x[0] == '-' then -v else v)
      else None
    else if |x| > 0 && AllDigits(x) then Some(DigitsValue(x))
    else None
  }

  /** An unsigned literal: mantissa, optional exponent, optional type suffix. */
  function ParseUnsigned(t: string): Option<real> {
    var body := if |t| > 0 && t[|t| - 1] in "fFdD" then t[..|t| - 1] else t;
    var e := IndexOfAny(body, {'e', 'E'});
    if e < 0 then ParseMantissa(body)
    else
      match (ParseMantissa(body[..e]), ParseExponent(body[e + 1..]))
      case (Some(m), Some(x)) => Some(Scale10(m, x))
      case _ => None
  }

  /**
   * A decimal literal. While `signed` holds, one leading `-` or `+` may come first; the rest is
   * read unsigned.
   */
  function ParseLiteral(t: string, signed: bool): Option<real>
    decreases |t|, signed
  {
    if !signed then ParseUnsigned(t)
    else if |t| > 0 && t[0] == '-' then
      match ParseLiteral(t[1..], false)
      case Some(v) => Some(-v)
      case None => None
    else if |t| > 0 && t[0] == '+' then ParseLiteral(t[1..], false)
    else ParseLiteral(t, false)
  }

  /**
   * Double.parseDouble(s), which Double.valueOf, new Double and Float.parseFloat share: the text
   * without its surrounding blanks must be a decimal literal, else NumberFormatException.
   */
  function ParseDouble(s: string): (r: Checked<real>)
    ensures r.Err? ==> r.error == NumberFormat(s)
    ensures Trim(s) == [] ==> r.Err?
  {
    assert ParseLiteral([], true) == ParseUnsigned([]) == None;
    match ParseLiteral(Trim(s), true)
    case Some(v) => Ok(v)
    case None => Err(NumberFormat(s))
  }

  // ---------------------------------------------------------------------------------------------
  // Decimal rendering of whole numbers, the partner of ParseDouble

  /** The decimal digits of `n`, without leading zeros ("0" for zero). */
  function NatToDigits(n: nat): (r: string)
    ensures |r| > 0 && AllDigits(r)
  {
    if n < 10 then [('0' as int + n) as char]
    else NatToDigits(n / 10) + [('0' as int + n % 10) as char]
  }

  lemma {:induction false} NatToDigitsValue(n: nat)
    ensures DigitsValue(NatToDigits(n)) == n
  {
    var r := NatToDigits(n);
    if n >= 10 {
      NatToDigitsValue(n / 10);
      assert r[..|r| - 1] == NatToDigits(n / 10);
    }
  }

  /** A run of digits holds no character outside the digits. */
  lemma DigitsLack(d: string, cs: set<char>)
    requires AllDigits(d) && forall c :: c in cs ==> !IsDigit(c)
    ensures forall k :: 0 <= k < |d| ==> d[k] !in cs
  {
    forall k | 0 <= k < |d|
      ensures d[k] !in cs
    {
      assert IsDigit(d[k]);
    }
  }

  lemma ParseMantissaOfDigits(d: string)
    requires |d| > 0 && AllDigits(d)
    ensures ParseMantissa(d) == Some(DigitsValue(d) as real)
  {
    DigitsLack(d, {'.'});
    assert '.' !in d;
  }

  /** A non-empty run of digits is an unsigned literal with the value the digits denote. */
  lemma ParseUnsignedOfDigits(d: string)
    requires |d| > 0 && AllDigits(d)
    ensures ParseUnsigned(d) == Some(DigitsValue(d) as real)
  {
    assert IsDigit(d[|d| - 1]);
    assert d[|d| - 1] !in "fFdD";
    DigitsLack(d, {'e', 'E'});
    assert IndexOfAny(d, {'e', 'E'}) == -1;
    ParseMantissaOfDigits(d);
  }

  lemma ParseDoubleOfLiteral(s: string)
    requires Trim(s) == s && ParseLiteral(s, true).Some?
    ensures ParseDouble(s) == Ok(ParseLiteral(s, true).value)
  {
  }

  /** A non-empty run of digits parses to the number it denotes. */
  lemma ParseDoubleOfDigits(d: string)
    requires |d| > 0 && AllDigits(d)
    ensures ParseDouble(d) == Ok(DigitsValue(d) as real)
  {
    assert IsDigit(d[0]) && IsDigit(d[|d| - 1]);
    TrimOfTrimmed(d);
    ParseUnsignedOfDigits(d);
    assert ParseLiteral(d, true) == ParseLiteral(d, false);
  }

  /** A minus sign followed by a non-empty run of digits parses to the negated number. */
  lemma ParseDoubleOfNegatedDigits(m: string)
    requires |m| > 1 && m[0] == '-' && AllDigits(m[1..])
    ensures ParseDouble(m) == Ok(-(DigitsValue(m[1..]) as real))
  {
    var d := m[1..];
    ParseUnsignedOfDigits(d);
    assert ParseLiteral(m, true) == Some(-(DigitsValue(d) as real)) by {
      assert ParseLiteral(d, false) == ParseUnsigned(d);
    }
    assert IsDigit(d[|d| - 1]) && m[|m| - 1] == d[|d| - 1];
    TrimOfTrimmed(m);
    ParseDoubleOfLiteral(m);
  }

  /** Rendering a whole number in decimal and parsing it back gives the number. */
  lemma ParseDoubleOfNat(n: nat)
    ensures ParseDouble(NatToDigits(n)) == Ok(n as real)
  {
    NatToDigitsValue(n);
    ParseDoubleOfDigits(NatToDigits(n));
  }
}
