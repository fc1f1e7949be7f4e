/**
 * The tool runner: `pnpm tool <name> [KEY=value ...]` reads `lua/api/<name>.lua`,
 * turns each argument into a Lua assignment, injects the assignments in front of the
 * tool's IIFE, wraps the IIFE's result, and hands the code to the eval script.
 *
 * The file system is a map from paths (relative to the working directory) to file
 * text; spawning the eval script is the `Launch` result.
 */
module ToolScript {
  import opened Text
  import opened IifeCode
  import LuaSnippets

  // ---------------------------------------------------------------------------
  // Values
  // ---------------------------------------------------------------------------

  /** The pre-quoted test as the script writes it: same quote character first and last. */
  predicate QuotedAsWritten(v: string) {
    (StartsWith(v, "'") && EndsWith(v, "'")) || (StartsWith(v, "\"") && EndsWith(v, "\""))
  }

  /** The value rendering as the script writes it. */
  function LuaValueAsWritten(v: string): string {
    if IsNumeric(v) then v else if QuotedAsWritten(v) then v else "\"" + v + "\""
  }

  /** A number, or text that starts and ends with the same quote; nothing inside is escaped, so this is not yet a closed Lua literal. */
  predicate IsLiteral(v: string) {
    IsNumeric(v) || (|v| >= 2 && (v[0] == '\'' || v[0] == '"') && v[|v| - 1] == v[0])
  }

  /**
   * A lone quote character counts as already quoted, so `KEY="` yields the
   * unterminated Lua `KEY = "`.
   */
  lemma LoneQuoteIsNotALiteral()
    ensures LuaValueAsWritten("\"") == "\""
    ensures !IsLiteral(LuaValueAsWritten("\""))
  {
    var q := "\"";
    assert !IsDigit(q[0]);
  }

  /** Already quoted: at least two characters, the same quote character first and last. */
  predicate Quoted(v: string) {
    |v| >= 2 && QuotedAsWritten(v)
  }

  /** The value of one `KEY=value` argument: numbers bare, quoted text as-is, other text double-quoted verbatim. */
  function LuaValue(v: string): (r: string)
    ensures IsLiteral(r)
    ensures IsNumeric(v) || Quoted(v) ==> r == v
    ensures !IsNumeric(v) && !Quoted(v) ==> r == "\"" + v + "\""
  {
    if IsNumeric(v) then v
    else if Quoted(v) then
      assert v[..1] == [v[0]] && v[|v| - 1..] == [v[|v| - 1]];
      v
    else "\"" + v + "\""
  }

  /** Rendering a rendered value again changes nothing. */
  lemma LuaValueIsIdempotent(v: string)
    ensures LuaValue(LuaValue(v)) == LuaValue(v)
  {
    var r := LuaValue(v);
    if !IsNumeric(v) && !Quoted(v) {
      assert r[..1] == "\"" && r[|r| - 1..] == "\"";
    }
  }

  /** On every value the corrected rendering agrees with the script except for a lone quote. */
  lemma LuaValueDiffersOnlyOnLoneQuote(v: string)
    requires v != "'" && v != "\""
    ensures LuaValue(v) == LuaValueAsWritten(v)
  {
  }

  // ---------------------------------------------------------------------------
  // Assignments
  // ---------------------------------------------------------------------------

  /** One argument as a Lua assignment: a bare `KEY` is `KEY = true`; otherwise split at the first `=`. */
  function ParamAssignment(p: string): string {
    match IndexOf(p, "=")
    case None => p + " = true"
    case Some(e) => p[..e] + " = " + LuaValue(p[e + 1..])
  }

  /** A bare flag is set to `true`. */
  lemma FlagIsTrue(p: string)
    requires '=' !in p
    ensures ParamAssignment(p) == p + " = true"
  {
    forall j | 0 <= j < |p|
      ensures !OccursAt(p, "=", j)
    {
      assert p[j..j + 1][0] == p[j];
    }
  }

  /** `KEY=value` binds `KEY` to the rendered value; `=` signs inside the value stay in the value. */
  lemma PairSplitsAtFirstEquals(key: string, value: string)
    requires '=' !in key
    ensures ParamAssignment(key + "=" + value) == key + " = " + LuaValue(value)
  {
    var p := key + "=" + value;
    assert OccursAt(p, "=", |key|);
    forall j | 0 <= j < |key|
      ensures !OccursAt(p, "=", j)
    {
      assert p[j] == key[j];
    }
    assert p[..|key|] == key;
    assert p[|key| + 1..] == value;
  }

  function Assignments(params: seq<string>): (r: seq<string>)
    ensures |r| == |params|
    ensures forall i :: 0 <= i < |r| ==> r[i] == ParamAssignment(params[i])
  {
    if |params| == 0 then [] else [ParamAssignment(params[0])] + Assignments(params[1..])
  }

  /** The assignments of all arguments, in argument order, joined with `; `. */
  function ParamAssignments(params: seq<string>): string {
    Join(Assignments(params), "; ")
  }

  /** Every assignment has text, so the joined assignments are empty exactly when there are no arguments. */
  lemma NoAssignmentsIffNoParams(params: seq<string>)
    ensures ParamAssignments(params) == "" <==> params == []
  {
    if params != [] {
      var a := Assignments(params);
      var first := ParamAssignment(params[0]);
      assert |first| >= 3 by {
        match IndexOf(params[0], "=")
        case None =>
        case Some(e) =>
      }
      if |a| > 1 {
        assert |Join(a, "; ")| >= |first|;
      }
    }
  }

  // ---------------------------------------------------------------------------
  // The script
  // ---------------------------------------------------------------------------

  /** What the script does: print usage, report a missing tool, or spawn the eval script. */
  datatype ToolLaunch = Usage | ToolNotFound(path: string) | Launch(luaCode: string)

  function ToolPath(toolName: string): string {
    "lua/api/" + toolName + ".lua"
  }

  /** The whole script, step by step on `luaCode`. */
  method RunTool(toolName: string, params: seq<string>, files: map<string, string>) returns (r: ToolLaunch)
    ensures toolName == "" ==> r == Usage
    ensures toolName != "" && ToolPath(toolName) !in files ==> r == ToolNotFound(ToolPath(toolName))
    ensures toolName != "" && ToolPath(toolName) in files ==>
              var code := files[ToolPath(toolName)];
              r == Launch(WrapIifeResult(if params == [] then code else InjectAssignments(code, ParamAssignments(params))))
  {
    if toolName == "" {
      return Usage;
    }
    var toolPath := ToolPath(toolName);
    if toolPath !in files {
      return ToolNotFound(toolPath);
    }
    var luaCode := files[toolPath];
    var paramAssignments := ParamAssignments(params);
    NoAssignmentsIffNoParams(params);
    luaCode := PrepareToolCode(luaCode, paramAssignments);
    return Launch(luaCode);
  }

  /**
   * When the tool's code ends in an IIFE, the code the runner launches is left unchanged
   * by the eval script's wrapper apart from the player setup and echo it may prepend.
   */
  lemma EvalDoesNotRewrap(code: string, cfg: LuaSnippets.EvalConfig)
    requires Wraps(code)
    ensures EndsWith(LuaSnippets.WrapLuaCode(WrapIifeResult(code), cfg), WrapIifeResult(code))
  {
    WrappedPrints(code);
  }
}
