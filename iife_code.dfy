/**
 * The code preparation shared by the tool runner and the CLI's `runLuaTool`: the
 * numeric test for argument values, the injection of `KEY = value` assignments
 * in front of the tool's immediately invoked function, and the
 * `rcon.print(serpent.line(...))` wrap of that function's result.
 */
module IifeCode {
  import opened Text

  // ---------------------------------------------------------------------------
  // Numeric values:  ^-?\d+(\.\d+)?$
  // ---------------------------------------------------------------------------

  /** A nonempty run of ASCII digits. */
  predicate Digits(s: string) {
    |s| > 0 && AllDigits(s)
  }

  /** The unsigned part `\d+(\.\d+)?`: digits, or digits, one dot and digits. */
  predicate UnsignedNumber(b: string) {
    match IndexOf(b, ".")
    case None => Digits(b)
    case Some(d) => Digits(b[..d]) && Digits(b[d + 1..])
  }

  /** `/^-?\d+(\.\d+)?$/.test(v)`. */
  predicate IsNumeric(v: string) {
    if StartsWith(v, "-") then UnsignedNumber(v[1..]) else UnsignedNumber(v)
  }

  /** The text of a number: an optional minus, the integer digits, an optional fraction. */
  function NumberText(negative: bool, whole: string, fraction: Option<string>): string {
    (if negative then "-" else "") + whole + (if fraction.Some? then "." + fraction.value else "")
  }

  ghost predicate NumberParts(whole: string, fraction: Option<string>) {
    Digits(whole) && (fraction.Some? ==> Digits(fraction.value))
  }

  /** Every number written with the pattern's parts passes the test. */
  lemma NumericComplete(negative: bool, whole: string, fraction: Option<string>)
    requires NumberParts(whole, fraction)
    ensures IsNumeric(NumberText(negative, whole, fraction))
  {
    var b := whole + (if fraction.Some? then "." + fraction.value else "");
    assert UnsignedNumber(b) by { UnsignedComplete(whole, fraction); }
    var v := NumberText(negative, whole, fraction);
    if negative {
      assert v[1..] == b by { assert v == "-" + b; }
      assert StartsWith(v, "-");
    } else {
      assert v == b;
      assert !StartsWith(v, "-") by { assert v[0] == whole[0]; }
    }
  }

  lemma UnsignedComplete(whole: string, fraction: Option<string>)
    requires NumberParts(whole, fraction)
    ensures UnsignedNumber(whole + (if fraction.Some? then "." + fraction.value else ""))
  {
    match fraction
    case None =>
      assert whole + "" == whole;
      DigitsHaveNoDot(whole);
    case Some(f) =>
      var b := whole + ("." + f);
      assert OccursAt(b, ".", |whole|);
      forall j | 0 <= j < |whole|
        ensures !OccursAt(b, ".", j)
      {
        assert b[j] == whole[j];
      }
      assert b[..|whole|] == whole;
      assert b[|whole| + 1..] == f;
  }

  lemma DigitsHaveNoDot(s: string)
    requires AllDigits(s)
    ensures IndexOf(s, ".") == None
  {
    forall j | 0 <= j < |s|
      ensures !OccursAt(s, ".", j)
    {
      assert s[j..j + 1][0] == s[j];
    }
  }

  /** Everything that passes the test is such a number. */
  lemma NumericSound(v: string) returns (negative: bool, whole: string, fraction: Option<string>)
    requires IsNumeric(v)
    ensures NumberParts(whole, fraction) && v == NumberText(negative, whole, fraction)
  {
    negative := StartsWith(v, "-");
    var b := if negative then v[1..] else v;
    assert UnsignedNumber(b);
    whole, fraction := UnsignedSound(b);
    var tail := if fraction.Some? then "." + fraction.value else "";
    if negative {
      assert v == "-" + b;
      assert NumberText(negative, whole, fraction) == "-" + (whole + tail) by {
        Associate("-", whole, tail);
      }
    } else {
      assert NumberText(negative, whole, fraction) == whole + tail by {
        assert "" + whole == whole;
      }
    }
  }

  lemma Associate(a: string, b: string, c: string)
    ensures a + b + c == a + (b + c)
  {
  }

  /** The unsigned part splits into its digits and optional fraction. */
  lemma UnsignedSound(b: string) returns (whole: string, fraction: Option<string>)
    requires UnsignedNumber(b)
    ensures NumberParts(whole, fraction) && b == whole + (if fraction.Some? then "." + fraction.value else "")
  {
    match IndexOf(b, ".")
    case None =>
      whole, fraction := b, None;
    case Some(d) =>
      whole, fraction := b[..d], Some(b[d + 1..]);
      assert b == b[..d] + "." + b[d + 1..] by { SplitAround(b, d); }
  }

  /** Text with a dot at `d` is what comes before it, the dot, and what comes after. */
  lemma SplitAround(b: string, d: nat)
    requires OccursAt(b, ".", d)
    ensures b == b[..d] + "." + b[d + 1..]
  {
    assert b[d] == b[d..d + 1][0];
  }

  /** A number never contains a quote, a semicolon or a line break: it is a single Lua token. */
  lemma NumericIsPlainToken(v: string)
    requires IsNumeric(v)
    ensures forall i :: 0 <= i < |v| ==> v[i] == '-' || v[i] == '.' || IsDigit(v[i])
  {
    var negative, whole, fraction := NumericSound(v);
    var b := whole + (if fraction.Some? then "." + fraction.value else "");
    forall i | 0 <= i < |b|
      ensures b[i] == '.' || IsDigit(b[i])
    {
      if i < |whole| {
        assert b[i] == whole[i];
      } else if i > |whole| {
        assert b[i] == fraction.value[i - |whole| - 1];
      }
    }
    if negative {
      assert forall i :: 1 <= i < |v| ==> v[i] == b[i - 1];
    } else {
      assert v == b;
    }
  }

  // ---------------------------------------------------------------------------
  // Injection and wrapping
  // ---------------------------------------------------------------------------

  const IifeOpen := "(function()"
  const IifeClose := "end)()"
  const RconPrint := "rcon.print"
  const PrintOpen := RconPrint + "(serpent.line("

  /** Where the assignments go: at the first `(function()`, or at the very start. */
  function InjectionPoint(code: string): (i: nat)
    ensures i <= |code|
    ensures Contains(code, IifeOpen) ==> OccursAt(code, IifeOpen, i)
    ensures !Contains(code, IifeOpen) ==> i == 0
    ensures forall j :: 0 <= j < i ==> !OccursAt(code, IifeOpen, j)
  {
    match IndexOf(code, IifeOpen)
    case None => 0
    case Some(i) => i
  }

  /** The assignments followed by `;\n`, spliced into the code at the injection point. */
  function InjectAssignments(code: string, assignments: string): (r: string)
    ensures |r| == |code| + |assignments| + 2
    ensures var i := InjectionPoint(code);
            && r[..i] == code[..i]
            && r[i..i + |assignments| + 2] == assignments + ";\n"
            && r[i + |assignments| + 2..] == code[i..]
  {
    var i := InjectionPoint(code);
    var r := code[..i] + assignments + ";\n" + code[i..];
    assert r[..i] == code[..i];
    assert r[i..i + |assignments| + 2] == assignments + ";\n";
    assert r[i + |assignments| + 2..] == code[i..];
    r
  }

  /**
   * `luaCode.trimEnd()`, then, when it ends with `end)()`, the text from the last
   * `(function()` on enclosed in `rcon.print(serpent.line(` ... `))`.
   */
  function WrapIifeResult(code: string): (r: string)
    ensures !EndsWith(TrimEnd(code), IifeClose) || !Contains(TrimEnd(code), IifeOpen) ==> r == TrimEnd(code)
  {
    var t := TrimEnd(code);
    if EndsWith(t, IifeClose) then
      match LastIndexOf(t, IifeOpen)
      case None => t
      case Some(i) => t[..i] + PrintOpen + t[i..] + "))"
    else t
  }

  /** Whether the wrap applies: the trimmed code ends with `end)()` and holds a `(function()`. */
  predicate Wraps(code: string) {
    EndsWith(TrimEnd(code), IifeClose) && Contains(TrimEnd(code), IifeOpen)
  }

  /** The last IIFE of the trimmed code, which the wrap encloses. */
  function LastIife(code: string): (i: nat)
    requires Wraps(code)
    ensures OccursAt(TrimEnd(code), IifeOpen, i)
    ensures forall j :: i < j ==> !OccursAt(TrimEnd(code), IifeOpen, j)
  {
    LastIndexOf(TrimEnd(code), IifeOpen).value
  }

  /** When the wrap applies, the text before the last IIFE is kept and the rest is enclosed. */
  lemma WrapKeepsPrefix(code: string)
    requires Wraps(code)
    ensures var t := TrimEnd(code);
            var i := LastIife(code);
            WrapIifeResult(code) == t[..i] + PrintOpen + t[i..] + "))"
  {
  }

  /** A wrapped result contains `rcon.print`, so the eval script leaves it alone. */
  lemma WrappedPrints(code: string)
    requires Wraps(code)
    ensures Contains(WrapIifeResult(code), "rcon.print")
  {
    var t := TrimEnd(code);
    var i := LastIife(code);
    var r := WrapIifeResult(code);
    assert r == t[..i] + RconPrint + ("(serpent.line(" + t[i..] + "))");
    Infix(t[..i], RconPrint, "(serpent.line(" + t[i..] + "))");
  }

  /** The middle piece of a concatenation occurs right after the first. */
  lemma Infix(a: string, b: string, c: string)
    ensures OccursAt(a + b + c, b, |a|)
  {
    assert (a + b + c)[|a|..|a| + |b|] == b;
  }

  /** Wrapping twice is wrapping once: the result ends in `))`, not in `end)()`. */
  lemma WrapIsIdempotent(code: string)
    ensures WrapIifeResult(WrapIifeResult(code)) == WrapIifeResult(code)
  {
    var r := WrapIifeResult(code);
    if Wraps(code) {
      var t := TrimEnd(code);
      var i := LastIife(code);
      var u := t[..i] + PrintOpen + t[i..];
      assert r == u + "))" by { WrapKeepsPrefix(code); }
      assert u[|u| - 4] == 'd' by {
        assert u[|u| - 4] == t[|t| - 4];
        assert t[|t| - 4] == t[|t| - 6..][2];
      }
      assert TrimEnd(r) == r by { assert r[|r| - 1] == ')'; }
      assert !EndsWith(r, IifeClose) by { NotClosed(u, "))"); }
    } else {
      var t := TrimEnd(code);
      assert TrimEnd(t) == t;
    }
  }

  /** Text whose fourth-last character is `d`, followed by two more, does not end in `end)()`. */
  lemma NotClosed(u: string, tail: string)
    requires |u| >= 4 && u[|u| - 4] == 'd' && |tail| == 2
    ensures !EndsWith(u + tail, IifeClose)
  {
    var r := u + tail;
    assert r[|r| - 6..][0] == 'd';
  }

  /**
   * The code the tool runners hand to the eval script: assignments injected when there
   * are any, then trimmed and the IIFE's result wrapped. Each step reassigns the code.
   */
  method PrepareToolCode(code: string, assignments: string) returns (luaCode: string)
    ensures luaCode == WrapIifeResult(if assignments == "" then code else InjectAssignments(code, assignments))
  {
    luaCode := code;
    if assignments != "" {
      var iifeStart := IndexOf(luaCode, IifeOpen);
      if iifeStart.Some? {
        luaCode := luaCode[..iifeStart.value] + assignments + ";\n" + luaCode[iifeStart.value..];
      } else {
        luaCode := assignments + ";\n" + luaCode;
      }
    }
    luaCode := TrimEnd(luaCode);
    if EndsWith(luaCode, IifeClose) {
      var iifeStart := LastIndexOf(luaCode, IifeOpen);
      if iifeStart.Some? {
        var before := luaCode[..iifeStart.value];
        var iife := luaCode[iifeStart.value..];
        luaCode := before + PrintOpen + iife + "))";
      }
    }
  }
}
