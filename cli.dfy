/**
 * The player-facing CLI, `factorio <command> [args...]`: the table of Lua tools and
 * their positional parameters, `runLuaTool` (bind the arguments to the tool's Lua
 * globals, inject them, wrap the IIFE's result, hand the code to the eval script), and
 * the joining of `factorio say` arguments into one chat message.
 *
 * The file system is a map from paths relative to the project root to file text;
 * spawning the eval script is the `Launch` result.
 */
module Cli {
  import opened Text
  import opened IifeCode
  import ToolScript

  // ---------------------------------------------------------------------------
  // The tool table
  // ---------------------------------------------------------------------------

  /** A positional parameter: its name in the help text and the Lua global it sets. */
  datatype ParamDef = ParamDef(name: string, luaGlobal: string)

  /** The Lua tools and their parameters, in position order. */
  function Tools(): map<string, seq<ParamDef>> {
    map[
      "status" := [ParamDef("query", "QUERY"), ParamDef("radius", "RADIUS")],
      "walk" := [ParamDef("direction", "DIRECTION"), ParamDef("duration", "DURATION")],
      "mine" := [ParamDef("target", "TARGET"), ParamDef("count", "COUNT")],
      "build" := [ParamDef("item", "ITEM"), ParamDef("offset_x", "OFFSET_X"),
                  ParamDef("offset_y", "OFFSET_Y"), ParamDef("direction", "BUILD_DIRECTION")],
      "craft" := [ParamDef("recipe", "RECIPE"), ParamDef("count", "CRAFT_COUNT")],
      "interact" := [ParamDef("action", "ACTION"), ParamDef("entity", "ENTITY_NAME"),
                     ParamDef("item", "ITEM_NAME"), ParamDef("count", "ITEM_COUNT")],
      "research" := [ParamDef("action", "RESEARCH_ACTION"), ParamDef("technology", "TECHNOLOGY")]
    ]
  }

  // ---------------------------------------------------------------------------
  // Argument binding
  // ---------------------------------------------------------------------------

  /** An argument as Lua: a number bare, anything else inside double quotes, verbatim. */
  function CliValue(v: string): (r: string)
    ensures IsNumeric(r) || (|r| >= 2 && r[0] == '"' && r[|r| - 1] == '"')
    ensures IsNumeric(v) ==> r == v
    ensures !IsNumeric(v) ==> |r| == |v| + 2 && r[1..|r| - 1] == v
  {
    if IsNumeric(v) then v else "\"" + v + "\""
  }

  /** Unlike the tool runner, the CLI quotes an already quoted argument a second time. */
  lemma QuotedArgumentIsQuotedAgain(v: string)
    requires !IsNumeric(v) && ToolScript.Quoted(v)
    ensures CliValue(v) == "\"" + v + "\"" != ToolScript.LuaValue(v)
  {
    assert |CliValue(v)| == |v| + 2;
  }

  /** Apart from an already quoted argument, the CLI renders a value as the tool runner does. */
  lemma CliValueAgreesWithToolRunner(v: string)
    requires !ToolScript.Quoted(v)
    ensures CliValue(v) == ToolScript.LuaValue(v)
  {
  }

  function Assign(p: ParamDef, v: string): string {
    p.luaGlobal + " = " + CliValue(v)
  }

  function Min(a: nat, b: nat): nat {
    if a <= b then a else b
  }

  /**
   * The assignments in position order: the i-th argument sets the i-th parameter's
   * global; arguments beyond the parameters are dropped, parameters beyond the
   * arguments are left unset.
   */
  function Bind(params: seq<ParamDef>, args: seq<string>): (r: seq<string>)
    ensures |r| == Min(|params|, |args|)
    ensures forall i :: 0 <= i < |r| ==> r[i] == Assign(params[i], args[i])
  {
    if |params| == 0 || |args| == 0 then []
    else [Assign(params[0], args[0])] + Bind(params[1..], args[1..])
  }

  /** Arguments beyond the tool's parameters change nothing. */
  lemma ExtraArgumentsIgnored(params: seq<ParamDef>, args: seq<string>, extra: seq<string>)
    requires |args| >= |params|
    ensures Bind(params, args + extra) == Bind(params, args)
  {
    var a := Bind(params, args + extra);
    var b := Bind(params, args);
    assert |a| == |b| == |params|;
    forall i | 0 <= i < |params|
      ensures a[i] == b[i]
    {
      assert (args + extra)[i] == args[i];
    }
  }

  /** The loop of `runLuaTool` that builds the assignments. */
  method BuildAssignments(params: seq<ParamDef>, args: seq<string>) returns (assignments: seq<string>)
    ensures assignments == Bind(params, args)
  {
    assignments := [];
    var i := 0;
    while i < |args| && i < |params|
      invariant 0 <= i <= Min(|params|, |args|)
      invariant |assignments| == i
      invariant forall k :: 0 <= k < i ==> assignments[k] == Assign(params[k], args[k])
    {
      var param := params[i];
      var value := args[i];
      var assignment: string;
      if IsNumeric(value) {
        assignment := param.luaGlobal + " = " + value;
      } else {
        assignment := param.luaGlobal + " = \"" + value + "\"";
      }
      assert assignment == Assign(param, value) by {
        if !IsNumeric(value) {
          QuotedRegroup(param.luaGlobal, value);
        }
      }
      assignments := assignments + [assignment];
      i := i + 1;
    }
    BindIsPointwise(params, args, assignments);
  }

  /** A sequence that agrees with `Bind` in length and at every position is `Bind`. */
  lemma BindIsPointwise(params: seq<ParamDef>, args: seq<string>, a: seq<string>)
    requires |a| == Min(|params|, |args|)
    requires forall k :: 0 <= k < |a| ==> a[k] == Assign(params[k], args[k])
    ensures a == Bind(params, args)
  {
  }

  /** The quoted assignment as the loop writes it is the quoted value after ` = `. */
  lemma QuotedRegroup(g: string, v: string)
    ensures g + " = \"" + v + "\"" == g + " = " + ("\"" + v + "\"")
  {
  }

  /** Each assignment has text, so their join is empty exactly when there are none. */
  lemma JoinedAssignmentsEmptyIffNone(params: seq<ParamDef>, args: seq<string>)
    ensures Join(Bind(params, args), "; ") == "" <==> Bind(params, args) == []
  {
    var a := Bind(params, args);
    if |a| > 1 {
      assert |Join(a, "; ")| >= |a[0]|;
    }
  }

  // ---------------------------------------------------------------------------
  // runLuaTool
  // ---------------------------------------------------------------------------

  datatype ToolResult = Failure(output: string) | Launch(luaCode: string) | Crashed

  /** The code handed to the eval script once the tool and its file are found. */
  function LaunchCode(code: string, assignments: seq<string>): string {
    WrapIifeResult(if assignments == [] then code else InjectAssignments(code, Join(assignments, "; ")))
  }

  /**
   * `runLuaTool` with the tool table as a dictionary of its own entries: every name
   * outside the table is an unknown tool.
   */
  method RunLuaTool(toolName: string, args: seq<string>, files: map<string, string>) returns (r: ToolResult)
    ensures toolName !in Tools() ==> r == Failure("Unknown tool: " + toolName)
    ensures toolName in Tools() && ToolScript.ToolPath(toolName) !in files ==>
              r == Failure("Tool file not found: " + ToolScript.ToolPath(toolName))
    ensures toolName in Tools() && ToolScript.ToolPath(toolName) in files ==>
              r == Launch(LaunchCode(files[ToolScript.ToolPath(toolName)], Bind(Tools()[toolName], args)))
  {
    if toolName !in Tools() {
      return Failure("Unknown tool: " + toolName);
    }
    var params := Tools()[toolName];
    var toolPath := ToolScript.ToolPath(toolName);
    if toolPath !in files {
      return Failure("Tool file not found: " + toolPath);
    }
    var paramAssignments := BuildAssignments(params, args);
    var luaCode := files[toolPath];
    JoinedAssignmentsEmptyIffNone(params, args);
    luaCode := PrepareToolCode(luaCode, Join(paramAssignments, "; "));
    return Launch(luaCode);
  }

  /** Property names every plain object inherits, which `TOOLS[name]` also finds. */
  const InheritedNames: set<string> := {
    "constructor", "__proto__", "toString", "toLocaleString", "valueOf", "hasOwnProperty",
    "isPrototypeOf", "propertyIsEnumerable", "__defineGetter__", "__defineSetter__",
    "__lookupGetter__", "__lookupSetter__"
  }

  /**
   * `runLuaTool` as written: the lookup `TOOLS[toolName]` also finds inherited
   * properties, which have no `params`; the loop test reads `tool.params.length`
   * only once there is an argument, and then it throws.
   */
  function RunLuaToolAsWritten(toolName: string, args: seq<string>, files: map<string, string>): ToolResult {
    if toolName !in Tools() && toolName !in InheritedNames then Failure("Unknown tool: " + toolName)
    else if ToolScript.ToolPath(toolName) !in files then Failure("Tool file not found: " + ToolScript.ToolPath(toolName))
    else if toolName !in Tools() then
      if args == [] then Launch(LaunchCode(files[ToolScript.ToolPath(toolName)], [])) else Crashed
    else Launch(LaunchCode(files[ToolScript.ToolPath(toolName)], Bind(Tools()[toolName], args)))
  }

  /** `factorio constructor` is not a tool, yet it is reported as a missing tool file. */
  lemma InheritedNameIsNotUnknown()
    ensures "constructor" !in Tools()
    ensures RunLuaToolAsWritten("constructor", [], map[]) == Failure("Tool file not found: " + ToolScript.ToolPath("constructor"))
  {
    var name := "constructor";
    assert |name| == 11;
    assert name !in Tools() by {
      assert forall k | k in Tools() :: |k| <= 8;
    }
  }

  /**
   * With a file at its path, `factorio constructor` runs that file's code when no
   * argument is given, and throws as soon as one is.
   */
  lemma InheritedNameRunsItsFile(code: string, arg: string)
    ensures var files := map[ToolScript.ToolPath("constructor") := code];
            && RunLuaToolAsWritten("constructor", [], files) == Launch(LaunchCode(code, []))
            && RunLuaToolAsWritten("constructor", [arg], files) == Crashed
  {
    InheritedNameIsNotUnknown();
  }

  // ---------------------------------------------------------------------------
  // factorio say
  // ---------------------------------------------------------------------------

  /** The arguments of `factorio say` joined with spaces; `None` is the usage error. */
  function SayMessage(args: seq<string>): Option<string> {
    var message := Join(args, " ");
    if message == "" then None else Some(message)
  }

  /** The usage error happens exactly when there are no arguments or a single empty one. */
  lemma SayRejectedIff(args: seq<string>)
    ensures SayMessage(args).None? <==> args == [] || args == [""]
  {
    if |args| > 1 {
      assert |Join(args, " ")| >= 1;
    }
  }

  /** Words without spaces are recovered by splitting the message at spaces. */
  lemma SayWordsRecoverable(args: seq<string>)
    requires SayMessage(args).Some?
    requires forall i :: 0 <= i < |args| ==> ' ' !in args[i]
    ensures Split(SayMessage(args).value, ' ') == args
  {
    SplitJoin(args, ' ');
  }
}
