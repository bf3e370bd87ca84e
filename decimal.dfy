/**
 The decimal text C# produces when a nullable `int` is concatenated into a
 string: `null` contributes nothing, any other value its decimal digits with a
 leading minus sign when negative. A parser is given alongside as the
 partner that shows no information is lost by the rendering.
 */
module Decimal {
  import opened Wrappers

  predicate IsDigit(c: char) { '0' <= c <= '9' }

  predicate AllDigits(s: string) { forall k :: 0 <= k < |s| ==> IsDigit(s[k]) }

  function DigitChar(d: nat): (c: char)
    requires d < 10
    ensures IsDigit(c) && DigitValue(c) == d
  {
    (('0' as int) + d) as char
  }

  function DigitValue(c: char): nat
    requires IsDigit(c)
  {
    (c as int) - ('0' as int)
  }

  /** Decimal digits of `n`, most significant first, without leading zeros. */
  function Digits(n: nat): (s: string)
    ensures |s| >= 1 && AllDigits(s)
    ensures s[0] == '0' ==> n == 0 && s == "0"
  {
    if n < 10 then [DigitChar(n)] else Digits(n / 10) + [DigitChar(n % 10)]
  }

  /** The value of a string of decimal digits. */
  function ParseDigits(s: string): nat
    requires AllDigits(s)
  {
    if s == [] then 0 else ParseDigits(s[..|s| - 1]) * 10 + DigitValue(s[|s| - 1])
  }

  lemma {:induction false} ParseDigitsOfDigits(n: nat)
    ensures ParseDigits(Digits(n)) == n
  {
    if n >= 10 {
      var s := Digits(n / 10);
      var t := Digits(n);
      assert t == s + [DigitChar(n % 10)];
      assert t[..|t| - 1] == s;
      ParseDigitsOfDigits(n / 10);
    }
  }

  /** `int.ToString()` with the invariant culture's minus sign. */
  function ShowInt(i: int): (s: string)
    ensures |s| >= 1
    ensures i < 0 <==> s[0] == '-'
  {
    if i < 0 then "-" + Digits(-i) else Digits(i)
  }

  /** What a C# `int?` contributes to a string concatenation. */
  function ShowNullable(o: Option<int>): (s: string)
    ensures s == "" <==> o.None?
  {
    match o
    case None => ""
    case Some(i) => ShowInt(i)
  }

  /** Reads back the output of `ShowInt`; `None` for anything it cannot produce. */
  function ParseInt(s: string): Option<int>
  {
    if |s| >= 2 && s[0] == '-' && AllDigits(s[1..]) then Some(0 - ParseDigits(s[1..]))
    else if |s| >= 1 && AllDigits(s) then Some(ParseDigits(s))
    else None
  }

  /** Reads back the output of `ShowNullable`: `Some(o)` for a rendered `o`, `None` when malformed. */
  function ParseNullable(s: string): Option<Option<int>>
  {
    if s == "" then Some(None)
    else match ParseInt(s)
      case None => None
      case Some(i) => Some(Some(i))
  }

  lemma ParseShowInt(i: int)
    ensures ParseInt(ShowInt(i)) == Some(i)
  {
    var s := ShowInt(i);
    if i < 0 {
      var d := Digits(-i);
      assert s == "-" + d;
      assert s[1..] == d;
      ParseDigitsOfDigits(-i);
      assert ParseDigits(s[1..]) == -i;
    } else {
      assert s == Digits(i);
      assert IsDigit(s[0]);
      ParseDigitsOfDigits(i);
    }
  }

  lemma ParseShowNullable(o: Option<int>)
    ensures ParseNullable(ShowNullable(o)) == Some(o)
  {
    if o.Some? {
      ParseShowInt(o.value);
    }
  }
}
