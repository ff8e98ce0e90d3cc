/** Decimal text for integers: Python's `int()` on the texts the runner hands it, and
    the decimal formatting of an integer in an f-string. */
module Decimal {
  import opened Results

  predicate IsDigit(c: char) {
    '0' <= c <= '9'
  }

  predicate AllDigits(s: string) {
    forall k :: 0 <= k < |s| ==> IsDigit(s[k])
  }

  function DigitValue(c: char): nat
    requires IsDigit(c)
  {
    (c as int - '0' as int) as nat
  }

  function DigitChar(d: nat): (c: char)
    requires d < 10
    ensures IsDigit(c) && DigitValue(c) == d
  {
    ('0' as int + d) as char
  }

  /** The value of a string of decimal digits, most significant first. */
  function DigitsValue(s: string): nat
    requires AllDigits(s)
  {
    if s == [] then 0 else DigitsValue(s[..|s| - 1]) * 10 + DigitValue(s[|s| - 1])
  }

  /** `int(s)`: an optional `+` or `-` followed by at least one decimal digit; any other
      text raises `ValueError`. */
  function ParseInt(s: string): (r: Result<int, PyError>)
    ensures r.Err? ==> r.error.ValueError?
  {
    var body := if s != [] && (s[0] == '-' || s[0] == '+') then s[1..] else s;
    if body == [] || !AllDigits(body) then Err(ValueError("invalid literal for int()"))
    else
      var v: int := DigitsValue(body);
      Ok(if s[0] == '-' then -v else v)
  }

  /** The decimal digits of a natural number, with no leading zero. */
  function NatText(n: nat): (s: string)
    ensures s != [] && AllDigits(s)
  {
    if n < 10 then [DigitChar(n)] else NatText(n / 10) + [DigitChar(n % 10)]
  }

  /** `f'{n}'` for an integer. */
  function Dec(n: int): (s: string)
    ensures s != []
  {
    if n < 0 then "-" + NatText(-n) else NatText(n)
  }

  lemma {:induction false} NatTextValue(n: nat)
    ensures DigitsValue(NatText(n)) == n
  {
    if n >= 10 {
      var s := NatText(n);
      assert s[..|s| - 1] == NatText(n / 10);
      NatTextValue(n / 10);
    }
  }

  /** `int()` reads back what the f-string writes. */
  lemma ParseDec(n: int)
    ensures ParseInt(Dec(n)) == Ok(n)
  {
    if n < 0 {
      var t := NatText(-n);
      NatTextValue(-n);
      assert Dec(n) == "-" + t && ("-" + t)[1..] == t;
    } else {
      var t := NatText(n);
      NatTextValue(n);
      assert IsDigit(t[0]);
    }
  }

  /** The text of an integer holds only digits and a leading minus sign, so it holds no
      `:` and no `;`. */
  lemma DecCharacters(n: int)
    ensures forall k :: 0 <= k < |Dec(n)| ==> IsDigit(Dec(n)[k]) || (k == 0 && Dec(n)[k] == '-')
  {
  }
}
