/** helpers/colors.py: ANSI foreground-colour escape strings. */
module Colors {
  import opened Results
  import opened Decimal
  import opened Texts

  /** The ESC control character that starts every sequence. */
  const Esc: char := '\U{001B}'

  /** A colour component or a palette index: 0 to 255. */
  predicate InRange(n: int) {
    0 <= n <= 255
  }

  /** `reset()`: back to the default foreground colour. */
  function Reset(): (s: string)
    ensures s == [Esc] + "[39m"
  {
    [Esc, '[', '3', '9', 'm']
  }

  /** `number(n)`: colour `n` of the 256-colour palette. */
  function Number(n: int): (r: Result<string, PyError>)
    ensures r.Ok? <==> InRange(n)
    ensures r.Err? ==> r.error == ValueError("invalid color number")
    ensures r.Ok? ==> r.value == [Esc] + "[38;5;" + Dec(n) + "m"
  {
    if n < 0 || n > 255 then Err(ValueError("invalid color number"))
    else Ok([Esc] + "[38;5;" + Dec(n) + "m")
  }

  /** `rgb(r, g, b)`: a 24-bit colour; the components are checked red, then green,
      then blue, and the first one out of range is named in the error. */
  function Rgb(r: int, g: int, b: int): (res: Result<string, PyError>)
    ensures res.Ok? <==> InRange(r) && InRange(g) && InRange(b)
    ensures !InRange(r) ==> res == Err(ValueError("invalid red component"))
    ensures InRange(r) && !InRange(g) ==> res == Err(ValueError("invalid green component"))
    ensures InRange(r) && InRange(g) && !InRange(b) ==> res == Err(ValueError("invalid blue component"))
    ensures res.Ok? ==> res.value == [Esc] + "[38;2;" + Dec(r) + ";" + Dec(g) + ";" + Dec(b) + "m"
  {
    if r < 0 || r > 255 then Err(ValueError("invalid red component"))
    else if g < 0 || g > 255 then Err(ValueError("invalid green component"))
    else if b < 0 || b > 255 then Err(ValueError("invalid blue component"))
    else Ok([Esc] + "[38;2;" + Dec(r) + ";" + Dec(g) + ";" + Dec(b) + "m")
  }

  /** The palette index can be read back from the text of `number(n)`. */
  lemma NumberReadsBack(n: int)
    requires InRange(n)
    ensures var s := Number(n).value;
            |s| > 8 && s[..7] == [Esc] + "[38;5;" && s[|s| - 1] == 'm' && ParseInt(s[7..|s| - 1]) == Ok(n)
  {
    var s := Number(n).value;
    assert s[7..|s| - 1] == Dec(n);
    ParseDec(n);
  }

  /** Distinct palette indexes give distinct strings. */
  lemma NumberInjective(m: int, n: int)
    requires InRange(m) && InRange(n) && Number(m) == Number(n)
    ensures m == n
  {
    NumberReadsBack(m);
    NumberReadsBack(n);
  }

  /** The text of an integer holds no `;`. */
  lemma DecFree(n: int)
    ensures ';' !in Dec(n)
  {
    DecCharacters(n);
  }

  /** The three components can be read back from the text of `rgb(r, g, b)`: its
      payload splits at `;` into three pieces that `int()` reads as `r`, `g` and `b`. */
  lemma RgbReadsBack(r: int, g: int, b: int)
    requires InRange(r) && InRange(g) && InRange(b)
    ensures var s := Rgb(r, g, b).value;
            |s| > 8 && s[..7] == [Esc] + "[38;2;" && s[|s| - 1] == 'm' &&
            var ps := Split(s[7..|s| - 1], ';');
            |ps| == 3 && ParseInt(ps[0]) == Ok(r) && ParseInt(ps[1]) == Ok(g) && ParseInt(ps[2]) == Ok(b)
  {
    var s := Rgb(r, g, b).value;
    var p := Dec(r) + ";" + Dec(g) + ";" + Dec(b);
    assert Rgb(r, g, b).value == [Esc] + "[38;2;" + (Dec(r) + ";" + Dec(g) + ";" + Dec(b)) + "m";
    assert s[7..|s| - 1] == p;
    DecFree(r);
    DecFree(g);
    DecFree(b);
    SplitThree(Dec(r), Dec(g), Dec(b), ';');
    ParseDec(r);
    ParseDec(g);
    ParseDec(b);
  }
}
