/**
 * The command-line handling the tools share: `arg(flag)`, which returns the
 * word after the first occurrence of a flag, `process.argv.includes(flag)`,
 * and `parseInt(s, 10)`, which the tools apply to `--chapter`.
 */
module CommandLine {
  import opened JsValues
  import opened Text

  /** `argv.indexOf(flag)`: the first position holding `flag`, or -1. */
  function IndexOf(argv: seq<string>, flag: string): (i: int)
    ensures -1 <= i < |argv|
    ensures i == -1 <==> flag !in argv
    ensures i >= 0 ==> argv[i] == flag && forall j :: 0 <= j < i ==> argv[j] != flag
  {
    if argv == [] then -1
    else if argv[0] == flag then 0
    else
      var i := IndexOf(argv[1..], flag);
      if i == -1 then -1 else i + 1
  }

  /**
   * `arg(flag)`: the word after the first `flag`. None stands both for the
   * absent flag and for a flag that is the last word (`argv[i + 1]` is
   * undefined).
   */
  function Arg(argv: seq<string>, flag: string): (r: Option<string>)
    ensures r.Some? <==> exists i :: 0 <= i < |argv| - 1 && argv[i] == flag && IndexOf(argv, flag) == i
    ensures r.Some? ==> r.value == argv[IndexOf(argv, flag) + 1]
  {
    var i := IndexOf(argv, flag);
    if i == -1 || i + 1 >= |argv| then None else Some(argv[i + 1])
  }

  /** An ASCII decimal digit. */
  predicate IsDigit(c: char)
  {
    '0' <= c <= '9'
  }

  /** The longest prefix of `s` made of decimal digits. */
  function DigitPrefix(s: string): (d: string)
    ensures |d| <= |s| && d == s[..|d|]
    ensures forall i :: 0 <= i < |d| ==> IsDigit(d[i])
    ensures |d| < |s| ==> !IsDigit(s[|d|])
  {
    if s != [] && IsDigit(s[0]) then [s[0]] + DigitPrefix(s[1..]) else []
  }

  /** The value of a string of decimal digits, most significant first. */
  function DecimalValue(d: string): (n: nat)
    requires forall i :: 0 <= i < |d| ==> IsDigit(d[i])
  {
    if d == [] then 0
    else
      var k := |d| - 1;
      assert IsDigit(d[k]);
      DecimalValue(d[..k]) * 10 + (d[k] as int - '0' as int)
  }

  /**
   * `parseInt(s, 10)`, with None for NaN. An undefined or null argument is
   * converted to the strings "undefined" and "null", which hold no digit,
   * so it gives NaN too. Leading white space and one sign are skipped, and
   * the digits that follow are read up to the first other character.
   */
  function ParseInt(s: Option<string>): (r: Option<int>)
  {
    if s.None? then None else ParseTrimmed(TrimStart(s.value))
  }

  /** `parseInt` once the leading white space is gone: one optional sign, then the digit prefix. */
  function ParseTrimmed(t: string): (r: Option<int>)
  {
    var negative := t != [] && t[0] == '-';
    var body := if t != [] && (t[0] == '-' || t[0] == '+') then t[1..] else t;
    var digits := DigitPrefix(body);
    var v: int := if digits == [] then 0 else DecimalValue(digits);
    if digits == [] then None else Some(if negative then -v else v)
  }

  /** The decimal numeral of a natural number, without leading zeros. */
  function Digits(n: nat): (d: string)
    ensures d != [] && forall i :: 0 <= i < |d| ==> IsDigit(d[i])
    ensures n > 0 ==> d[0] != '0'
  {
    if n < 10 then ['0' + n as char] else Digits(n / 10) + ['0' + (n % 10) as char]
  }

  /** `String(n)` for an integer. */
  function Decimal(n: int): (s: string)
    ensures s != [] && !IsSpace(s[0])
  {
    if n < 0 then "-" + Digits(-n) else Digits(n)
  }

  /** Reading the digits of n back gives n. */
  lemma {:induction false} DigitsValue(n: nat)
    ensures DecimalValue(Digits(n)) == n
  {
    if n >= 10 {
      DigitsValue(n / 10);
      var d := Digits(n);
      assert d[..|d| - 1] == Digits(n / 10);
    }
  }

  /** A digit string followed by a non-digit: the digit prefix is the digit string. */
  lemma {:induction false} DigitPrefixOf(d: string, rest: string)
    requires forall i :: 0 <= i < |d| ==> IsDigit(d[i])
    requires rest == [] || !IsDigit(rest[0])
    ensures DigitPrefix(d + rest) == d
  {
    if d != [] {
      assert (d + rest)[1..] == d[1..] + rest;
      DigitPrefixOf(d[1..], rest);
    }
  }

  /**
   * `parseInt` reads back the numeral of every integer, and stops at the
   * first character that is not a digit: `parseInt("12abc", 10)` is 12.
   */
  lemma {:induction false} ParseIntDecimal(n: int, rest: string)
    requires rest == [] || !IsDigit(rest[0])
    ensures ParseInt(Some(Decimal(n) + rest)) == Some(n)
  {
    if n < 0 {
      var m: nat := -n;
      DigitsValue(m);
      ParseIntNegative(Digits(m), rest);
      assert Decimal(n) == "-" + Digits(m);
    } else {
      ParseIntDecimalNatural(n, rest);
    }
  }

  /** The round trip for the unsigned text of a natural number. */
  lemma ParseIntDecimalNatural(n: nat, rest: string)
    requires rest == [] || !IsDigit(rest[0])
    ensures ParseInt(Some(Digits(n) + rest)) == Some(n)
  {
    ParseIntUnsigned(Digits(n), rest);
    DigitsValue(n);
  }

  /** `parseInt` reads the leading digits and stops at the first non-digit. */
  lemma {:induction false} ParseIntUnsigned(d: string, rest: string)
    requires d != [] && forall i :: 0 <= i < |d| ==> IsDigit(d[i])
    requires rest == [] || !IsDigit(rest[0])
    ensures ParseInt(Some(d + rest)) == Some(DecimalValue(d))
  {
    var s := d + rest;
    assert s[0] == d[0];
    TrimStartKeeps(s);
    DigitPrefixOf(d, rest);
  }

  /** Text that starts with a non-space character is its own `trimStart`. */
  lemma {:induction false} TrimStartKeeps(s: string)
    requires s != [] && !IsSpace(s[0])
    ensures TrimStart(s) == s
  {
  }

  /** A leading minus sign negates the value of the digits after it. */
  lemma {:induction false} ParseIntNegative(d: string, rest: string)
    requires d != [] && forall i :: 0 <= i < |d| ==> IsDigit(d[i])
    requires rest == [] || !IsDigit(rest[0])
    ensures ParseInt(Some("-" + d + rest)) == Some(-(DecimalValue(d) as int))
  {
    var s := "-" + d + rest;
    TrimStartKeeps(s);
    assert s[1..] == d + rest;
    DigitPrefixOf(d, rest);
  }

  /** `parseInt` skips leading white space. */
  lemma {:induction false} ParseIntSkipsSpace(c: char, s: string)
    requires IsSpace(c)
    ensures ParseInt(Some([c] + s)) == ParseInt(Some(s))
  {
    assert TrimStart([c] + s) == TrimStart(s) by {
      assert ([c] + s)[1..] == s;
    }
  }

  /** A string that does not start, after white space and a sign, with a digit is NaN. */
  lemma ParseIntNaN(s: string)
    requires var t := TrimStart(s);
      t == [] || (!IsDigit(t[0]) && t[0] != '-' && t[0] != '+')
    ensures ParseInt(Some(s)) == None
  {
  }
}
