/** helpers/runner.py: the runner's variable environment, its synthetic colour
    variables, and the dispatch of a command line to one of the registered commands. */
module Runtime {
  import opened Results
  import opened Decimal
  import opened Texts
  import opened Colors

  /** The prefix that marks a synthetic colour variable. */
  const ColorPrefix: string := "COLOR:"

  /** The error of a name that is neither synthetic nor bound. */
  function NotFound(name: string): PyError {
    ValueError("variable " + name + " not found")
  }

  /** A name that is looked up in the environment: neither `RESET` nor a colour name. */
  predicate Ordinary(name: string) {
    name != "RESET" && !StartsWith(name, ColorPrefix)
  }

  /** `Runner.get_variable(name)` over the bindings `variables`. A colour name is tried
      as a palette index, then as three `:`-separated components; a `ValueError` from
      `int()` or from the colour builder falls through to "not found", and a colour name
      is never looked up in the environment. */
  function Resolve(variables: map<string, string>, name: string): (r: Result<string, PyError>)
    ensures r.Err? ==> r.error == NotFound(name)
    ensures name == "RESET" ==> r == Ok(Reset())
    ensures Ordinary(name) ==> (r.Ok? <==> name in variables)
    ensures Ordinary(name) && name in variables ==> r.value == variables[name]
  {
    if StartsWith(name, ColorPrefix) then
      var rest := name[|ColorPrefix|..];
      var n := ParseInt(rest);
      if n.Ok? && Number(n.value).Ok? then Number(n.value)
      else
        var values := Split(rest, ':');
        if |values| == 3 then
          var c0, c1, c2 := ParseInt(values[0]), ParseInt(values[1]), ParseInt(values[2]);
          if c0.Ok? && c1.Ok? && c2.Ok? && Rgb(c0.value, c1.value, c2.value).Ok? then
            Rgb(c0.value, c1.value, c2.value)
          else Err(NotFound(name))
        else Err(NotFound(name))
    else if name == "RESET" then Ok(Reset())
    else if name in variables then Ok(variables[name])
    else Err(NotFound(name))
  }

  /** The registered commands, in the order the runner builds its table. */
  const CommandNames: seq<string> := ["ask", "command", "echo", "file", "set"]

  /** The keys of the runner's command table. */
  const Registry: set<string> := set k | 0 <= k < |CommandNames| :: CommandNames[k]

  /** The first step of `Runner.__call__` on an already parsed argument list: the
      command named by the first argument, an `IndexError` when there is none, and
      "invalid command" when no command has that name. */
  function Dispatch(arguments: seq<string>): (r: Result<string, PyError>)
    ensures arguments == [] <==> r == Err(IndexError)
    ensures arguments != [] ==> (r.Ok? <==> arguments[0] in Registry)
    ensures r.Ok? ==> r.value == arguments[0]
    ensures arguments != [] && r.Err? ==> r.error == ValueError("invalid command " + arguments[0])
  {
    if arguments == [] then Err(IndexError)
    else if arguments[0] in Registry then Ok(arguments[0])
    else Err(ValueError("invalid command " + arguments[0]))
  }

  /** The table holds exactly the five commands: no two of them share a name. */
  lemma RegistryContents()
    ensures Registry == {"ask", "command", "echo", "file", "set"}
    ensures |Registry| == |CommandNames| == 5
  {
    assert CommandNames[0] in Registry && CommandNames[1] in Registry && CommandNames[2] in Registry;
    assert CommandNames[3] in Registry && CommandNames[4] in Registry;
  }

  /** A runner: its variables, which `set_variable` updates in place, and the setup
      directory it was created for. */
  class Runner {
    var variables: map<string, string>
    const directory: string

    /** A new runner has no variables. */
    constructor (directory: string)
      ensures this.directory == directory && variables == map[]
    {
      this.directory := directory;
      variables := map[];
    }

    /** `set_variable(name, value)`: bind `name`, replacing any earlier value; an
        ordinary name then reads back as `value`. */
    method SetVariable(name: string, value: string)
      modifies this
      ensures variables == old(variables)[name := value]
      ensures Ordinary(name) ==> Resolve(variables, name) == Ok(value)
    {
      variables := variables[name := value];
    }

    /** `get_variable(name)` on the current bindings, which it leaves unchanged. */
    method GetVariable(name: string) returns (r: Result<string, PyError>)
      ensures r == Resolve(variables, name)
      ensures r.Err? ==> r.error == NotFound(name)
    {
      r := Resolve(variables, name);
    }
  }

  /** After `set_variable(n, v)`, an ordinary `n` reads back as `v`, and every other
      name reads as it did before. */
  lemma ResolveAfterSet(variables: map<string, string>, n: string, v: string, m: string)
    ensures Ordinary(n) ==> Resolve(variables[n := v], n) == Ok(v)
    ensures m != n ==> Resolve(variables[n := v], m) == Resolve(variables, m)
    ensures !Ordinary(n) ==> Resolve(variables[n := v], n) == Resolve(variables, n)
  {
    if m != n && Ordinary(m) {
      assert (m in variables[n := v]) == (m in variables);
    }
  }

  /** What a colour name yields does not depend on the bindings. */
  lemma ColorIgnoresBindings(variables: map<string, string>, others: map<string, string>, name: string)
    requires StartsWith(name, ColorPrefix)
    ensures Resolve(variables, name) == Resolve(others, name)
  {
  }

  /** A text `int()` accepts holds no `:`. */
  lemma ParsedNoColon(t: string)
    requires ParseInt(t).Ok?
    ensures ':' !in t
  {
    forall k | 0 <= k < |t|
      ensures t[k] != ':'
    {
      if k > 0 && (t[0] == '-' || t[0] == '+') {
        assert t[k] == t[1..][k - 1];
      }
    }
  }

  /** A text holding a `:` is rejected by `int()`. */
  lemma ColonNotParsed(t: string, k: nat)
    requires k < |t| && t[k] == ':'
    ensures ParseInt(t).Err?
  {
    if t[0] == '-' || t[0] == '+' {
      assert !IsDigit(t[1..][k - 1]);
    } else {
      assert !IsDigit(t[k]);
    }
  }

  /** Three texts without `:`, joined by `:`, form a payload that `int()` rejects and
      that splits back into the three. */
  lemma ComponentsPayload(tr: string, tg: string, tb: string)
    requires ':' !in tr && ':' !in tg && ':' !in tb
    ensures ParseInt(tr + ":" + tg + ":" + tb).Err?
    ensures Split(tr + ":" + tg + ":" + tb, ':') == [tr, tg, tb]
  {
    ColonNotParsed(tr + ":" + tg + ":" + tb, |tr|);
    SplitThree(tr, tg, tb, ':');
  }

  /** The payload of a name that starts with the colour prefix. */
  lemma ColorPayload(t: string)
    ensures StartsWith(ColorPrefix + t, ColorPrefix) && (ColorPrefix + t)[|ColorPrefix|..] == t
  {
    assert (ColorPrefix + t)[..|ColorPrefix|] == ColorPrefix;
  }

  /** `COLOR:` followed by a text `int()` reads as a palette index gives that colour. */
  lemma ColorNumber(variables: map<string, string>, t: string, n: int)
    requires ParseInt(t) == Ok(n) && InRange(n)
    ensures Resolve(variables, ColorPrefix + t) == Number(n)
  {
    ColorPayload(t);
  }

  /** The name `f'COLOR:{n}'` of a palette index gives colour `n`. */
  lemma ColorNumberDec(variables: map<string, string>, n: int)
    requires InRange(n)
    ensures Resolve(variables, ColorPrefix + Dec(n)) == Number(n)
  {
    ParseDec(n);
    ColorNumber(variables, Dec(n), n);
  }

  /** `COLOR:r:g:b` with three texts `int()` reads as components in range gives the
      24-bit colour: the whole payload is not an integer, and it splits into three. */
  lemma ColorRgb(variables: map<string, string>, tr: string, tg: string, tb: string, r: int, g: int, b: int)
    requires ParseInt(tr) == Ok(r) && ParseInt(tg) == Ok(g) && ParseInt(tb) == Ok(b)
    requires InRange(r) && InRange(g) && InRange(b)
    ensures Resolve(variables, ColorPrefix + tr + ":" + tg + ":" + tb) == Rgb(r, g, b)
  {
    var t := tr + ":" + tg + ":" + tb;
    assert ColorPrefix + tr + ":" + tg + ":" + tb == ColorPrefix + t;
    ParsedNoColon(tr);
    ParsedNoColon(tg);
    ParsedNoColon(tb);
    ComponentsPayload(tr, tg, tb);
    ColorSplit(variables, t, [tr, tg, tb], r, g, b);
  }

  /** A colour payload that is not an integer and splits into three components in range
      gives the 24-bit colour. */
  lemma ColorSplit(variables: map<string, string>, t: string, ts: seq<string>, r: int, g: int, b: int)
    requires ParseInt(t).Err? && Split(t, ':') == ts && |ts| == 3
    requires ParseInt(ts[0]) == Ok(r) && ParseInt(ts[1]) == Ok(g) && ParseInt(ts[2]) == Ok(b)
    requires InRange(r) && InRange(g) && InRange(b)
    ensures Resolve(variables, ColorPrefix + t) == Rgb(r, g, b)
  {
    ColorPayload(t);
  }

  /** The name `f'COLOR:{r}:{g}:{b}'` of three components in range gives `rgb(r, g, b)`. */
  lemma ColorRgbDec(variables: map<string, string>, r: int, g: int, b: int)
    requires InRange(r) && InRange(g) && InRange(b)
    ensures Resolve(variables, ColorPrefix + Dec(r) + ":" + Dec(g) + ":" + Dec(b)) == Rgb(r, g, b)
  {
    ParseDec(r);
    ParseDec(g);
    ParseDec(b);
    ColorRgb(variables, Dec(r), Dec(g), Dec(b), r, g, b);
  }

  /** A text `int()` reads as a colour component or palette index: 0 to 255. */
  predicate InRangeText(t: string) {
    ParseInt(t).Ok? && InRange(ParseInt(t).value)
  }

  /** Three texts that `int()` reads as components in range, joined by two `:`. */
  ghost predicate ComponentsText(t: string) {
    exists i, j | 0 <= i < j < |t| && t[i] == ':' && t[j] == ':' ::
      InRangeText(t[..i]) && InRangeText(t[i + 1..j]) && InRangeText(t[j + 1..])
  }

  /** The payloads that name a colour: a palette index or three components. */
  ghost predicate ColorText(t: string) {
    InRangeText(t) || ComponentsText(t)
  }

  /** A colour name that resolves has a palette index or three components in range as
      its payload. */
  lemma ResolvedColorText(variables: map<string, string>, t: string)
    requires Resolve(variables, ColorPrefix + t).Ok?
    ensures ColorText(t)
  {
    if !InRangeText(t) {
      ResolvedComponents(variables, t);
      SplitComponents(t);
    }
  }

  /** A colour name that resolves without being a palette index splits into three
      components in range. */
  lemma ResolvedComponents(variables: map<string, string>, t: string)
    requires Resolve(variables, ColorPrefix + t).Ok? && !InRangeText(t)
    ensures var ps := Split(t, ':');
            |ps| == 3 && InRangeText(ps[0]) && InRangeText(ps[1]) && InRangeText(ps[2])
  {
    ColorPayload(t);
  }

  /** A text that splits at `:` into three components in range is cut by two `:` into
      those components. */
  lemma SplitComponents(t: string)
    requires var ps := Split(t, ':');
             |ps| == 3 && InRangeText(ps[0]) && InRangeText(ps[1]) && InRangeText(ps[2])
    ensures ComponentsText(t)
  {
    var ps := Split(t, ':');
    JoinSplit(t, ':');
    JoinThree(ps[0], ps[1], ps[2], ':');
    assert ps == [ps[0], ps[1], ps[2]];
    var i := |ps[0]|;
    var j := i + 1 + |ps[1]|;
    assert t == ps[0] + [':'] + ps[1] + [':'] + ps[2];
    assert t[..i] == ps[0] && t[i + 1..j] == ps[1] && t[j + 1..] == ps[2];
    assert t[i] == ':' && t[j] == ':';
  }

  /** `COLOR:t` resolves exactly when `t` is a palette index or three components in
      range; every other colour name is not found. */
  lemma ColorResolves(variables: map<string, string>, t: string)
    ensures Resolve(variables, ColorPrefix + t).Ok? <==> ColorText(t)
    ensures !ColorText(t) ==> Resolve(variables, ColorPrefix + t) == Err(NotFound(ColorPrefix + t))
  {
    if Resolve(variables, ColorPrefix + t).Ok? {
      ResolvedColorText(variables, t);
    }
    if InRangeText(t) {
      ColorNumber(variables, t, ParseInt(t).value);
    } else if ComponentsText(t) {
      var i, j :| 0 <= i < j < |t| && t[i] == ':' && t[j] == ':' &&
        InRangeText(t[..i]) && InRangeText(t[i + 1..j]) && InRangeText(t[j + 1..]);
      ComponentsResolve(variables, t, i, j);
    }
  }

  /** A payload cut by two `:` into three components in range names their colour. */
  lemma ComponentsResolve(variables: map<string, string>, t: string, i: nat, j: nat)
    requires i < j < |t| && t[i] == ':' && t[j] == ':'
    requires InRangeText(t[..i]) && InRangeText(t[i + 1..j]) && InRangeText(t[j + 1..])
    ensures Resolve(variables, ColorPrefix + t).Ok?
  {
    var tr, tg, tb := t[..i], t[i + 1..j], t[j + 1..];
    CutTwice(t, i, j);
    ParsedNoColon(tr);
    ParsedNoColon(tg);
    ParsedNoColon(tb);
    SplitThree(tr, tg, tb, ':');
    ColonNotParsed(t, i);
    ColorSplit(variables, t, [tr, tg, tb], ParseInt(tr).value, ParseInt(tg).value, ParseInt(tb).value);
  }

  /** A colour name whose payload is neither a palette index nor three components in
      range is not found, even when the environment binds that very name. */
  lemma ColorNameNotFound(variables: map<string, string>, t: string, value: string)
    requires !ColorText(t)
    ensures Resolve(variables, ColorPrefix + t) == Err(NotFound(ColorPrefix + t))
    ensures Resolve(variables[ColorPrefix + t := value], ColorPrefix + t) == Err(NotFound(ColorPrefix + t))
  {
    ColorResolves(variables, t);
    ColorResolves(variables[ColorPrefix + t := value], t);
  }

  /** Names that fall through to "not found": a word, a negative index, a component out
      of range, and two components instead of three. */
  lemma ColorNameRows(variables: map<string, string>)
    ensures Resolve(variables, "COLOR:red") == Err(NotFound("COLOR:red"))
    ensures Resolve(variables, "COLOR:-1") == Err(NotFound("COLOR:-1"))
    ensures Resolve(variables, "COLOR:1:2:300") == Err(NotFound("COLOR:1:2:300"))
    ensures Resolve(variables, "COLOR:1:2") == Err(NotFound("COLOR:1:2"))
  {
    WordRow(variables);
    NegativeRow(variables);
    ComponentRow(variables);
    TwoComponentsRow(variables);
  }

  lemma WordRow(variables: map<string, string>)
    ensures Resolve(variables, "COLOR:red") == Err(NotFound("COLOR:red"))
  {
    ColorPayload("red");
    assert ColorPrefix + "red" == "COLOR:red";
    assert !IsDigit('r');
    SplitFree("red", ':', []);
  }

  lemma NegativeRow(variables: map<string, string>)
    ensures Resolve(variables, "COLOR:-1") == Err(NotFound("COLOR:-1"))
  {
    ColorPayload("-1");
    assert ColorPrefix + "-1" == "COLOR:-1";
    assert "-1"[1..] == "1";
    SplitFree("-1", ':', []);
  }

  lemma ComponentRow(variables: map<string, string>)
    ensures Resolve(variables, "COLOR:1:2:300") == Err(NotFound("COLOR:1:2:300"))
  {
    var t := "1:2:300";
    assert ColorPrefix + t == "COLOR:1:2:300";
    ComponentTexts();
    ComponentsFallThrough(variables, t, ["1", "2", "300"]);
  }

  /** `1:2:300` is not an integer and splits into `1`, `2` and `300`, which `int()`
      reads as 300. */
  lemma ComponentTexts()
    ensures ParseInt("1:2:300").Err? && Split("1:2:300", ':') == ["1", "2", "300"]
    ensures ParseInt("300") == Ok(300)
  {
    ColonNotParsed("1:2:300", 1);
    assert "1:2:300" == "1" + [':'] + "2" + [':'] + "300";
    SplitThree("1", "2", "300", ':');
    ThreeHundred();
  }

  lemma ThreeHundred()
    ensures ParseInt("300") == Ok(300)
  {
    assert "300"[..2] == "30" && "30"[..1] == "3" && "3"[..0] == "";
    assert DigitsValue("3") == 3;
    assert DigitsValue("30") == 30;
  }

  /** A payload that is not an integer and splits into three pieces, one of them not a
      component in range, is not found. */
  lemma ComponentsFallThrough(variables: map<string, string>, t: string, ts: seq<string>)
    requires ParseInt(t).Err? && Split(t, ':') == ts && |ts| == 3
    requires !(InRangeText(ts[0]) && InRangeText(ts[1]) && InRangeText(ts[2]))
    ensures Resolve(variables, ColorPrefix + t) == Err(NotFound(ColorPrefix + t))
  {
    ColorPayload(t);
  }

  lemma TwoComponentsRow(variables: map<string, string>)
    ensures Resolve(variables, "COLOR:1:2") == Err(NotFound("COLOR:1:2"))
  {
    ColorPayload("1:2");
    assert ColorPrefix + "1:2" == "COLOR:1:2";
    ColonNotParsed("1:2", 1);
    assert "1:2" == "1" + [':'] + "2";
    SplitFree("1", ':', "2");
    SplitFree("2", ':', []);
  }

  /** An out-of-range palette index is not found rather than reported as a colour
      error: `number()`'s `ValueError` is swallowed. */
  lemma ColorOutOfRange(variables: map<string, string>, n: int)
    requires n > 255
    ensures Resolve(variables, ColorPrefix + Dec(n)) == Err(NotFound(ColorPrefix + Dec(n)))
  {
    ParseDec(n);
    ColorPayload(Dec(n));
    DecCharacters(n);
    assert ':' !in Dec(n);
    SplitFree(Dec(n), ':', []);
  }

  /** Every registered name dispatches to its command, whatever follows it. */
  lemma DispatchRegistered(arguments: seq<string>)
    requires arguments != [] && arguments[0] in {"ask", "command", "echo", "file", "set"}
    ensures Dispatch(arguments) == Ok(arguments[0])
  {
    RegistryContents();
  }
}
