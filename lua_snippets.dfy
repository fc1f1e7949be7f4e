/**
 * The Lua text the eval script builds around a piece of user code: string escaping
 * for a double-quoted Lua literal, the truncated echo of the command, the player
 * accessor, and the wrapper that injects `player`/`surface`/`force` and returns the
 * value through `rcon.print(serpent.line(...))`.
 *
 * The environment settings (`FACTORIO_PLAYER`, `FACTORIO_SHOW_COMMANDS`,
 * `FACTORIO_MAX_DISPLAY_LENGTH`) are the fields of `EvalConfig`.
 */
module LuaSnippets {
  import opened Text

  // ---------------------------------------------------------------------------
  // Escaping
  // ---------------------------------------------------------------------------

  /** `s.replace(/c/g, rep)` for a single character `c`. */
  function ReplaceChar(s: string, c: char, rep: string): (r: string)
    ensures c !in rep ==> c !in r
    ensures forall d :: d != c && d !in rep && d !in s ==> d !in r
  {
    if |s| == 0 then "" else (if s[0] == c then rep else [s[0]]) + ReplaceChar(s[1..], c, rep)
  }

  /** `escapeForLua`: backslashes first, then double quotes, line feeds and carriage returns. */
  function EscapeForLua(s: string): (r: string)
    ensures r == EscapeEach(s)
  {
    EscapeIsPerCharacter(s);
    Passes(s)
  }

  /** The four characters that get a backslash. */
  predicate IsSpecial(c: char) {
    c == '\\' || c == '"' || c == '\n' || c == '\r'
  }

  /** The escape of one character, independent of the order of the passes. */
  function EscapeChar(c: char): string {
    if c == '\\' then "\\\\"
    else if c == '"' then "\\\""
    else if c == '\n' then "\\n"
    else if c == '\r' then "\\r"
    else [c]
  }

  /** Escaping each character on its own and concatenating the results. */
  function EscapeEach(s: string): string {
    if |s| == 0 then "" else EscapeChar(s[0]) + EscapeEach(s[1..])
  }

  function CountSpecial(s: string): nat {
    if |s| == 0 then 0 else (if IsSpecial(s[0]) then 1 else 0) + CountSpecial(s[1..])
  }

  lemma {:induction false} ReplaceCharAppend(a: string, b: string, c: char, rep: string)
    ensures ReplaceChar(a + b, c, rep) == ReplaceChar(a, c, rep) + ReplaceChar(b, c, rep)
    decreases |a|
  {
    if |a| == 0 {
      assert a + b == b;
    } else {
      assert (a + b)[1..] == a[1..] + b;
      ReplaceCharAppend(a[1..], b, c, rep);
    }
  }

  /** The four replace passes in order: backslashes, double quotes, line feeds, carriage returns. */
  function Passes(s: string): string {
    ReplaceChar(ReplaceChar(ReplaceChar(ReplaceChar(s, '\\', "\\\\"), '"', "\\\""), '\n', "\\n"), '\r', "\\r")
  }

  lemma PassesAppend(a: string, b: string)
    ensures Passes(a + b) == Passes(a) + Passes(b)
  {
    var a1, b1 := ReplaceChar(a, '\\', "\\\\"), ReplaceChar(b, '\\', "\\\\");
    ReplaceCharAppend(a, b, '\\', "\\\\");
    var a2, b2 := ReplaceChar(a1, '"', "\\\""), ReplaceChar(b1, '"', "\\\"");
    ReplaceCharAppend(a1, b1, '"', "\\\"");
    var a3, b3 := ReplaceChar(a2, '\n', "\\n"), ReplaceChar(b2, '\n', "\\n");
    ReplaceCharAppend(a2, b2, '\n', "\\n");
    ReplaceCharAppend(a3, b3, '\r', "\\r");
  }

  /** On one character the passes give that character's escape: no pass re-escapes an earlier one's output. */
  lemma PassesOfChar(c: char)
    ensures Passes([c]) == EscapeChar(c)
  {
    var one := [c];
    assert one[1..] == [];
    if c == '\\' {
      assert ReplaceChar(one, '\\', "\\\\") == "\\\\";
      assert ReplaceChar("\\\\", '"', "\\\"") == "\\\\";
      assert ReplaceChar("\\\\", '\n', "\\n") == "\\\\";
      assert ReplaceChar("\\\\", '\r', "\\r") == "\\\\";
    } else if c == '"' {
      assert ReplaceChar(one, '"', "\\\"") == "\\\"";
      assert ReplaceChar("\\\"", '\n', "\\n") == "\\\"";
      assert ReplaceChar("\\\"", '\r', "\\r") == "\\\"";
    } else if c == '\n' {
      assert ReplaceChar(one, '\n', "\\n") == "\\n";
      assert ReplaceChar("\\n", '\r', "\\r") == "\\n";
    } else if c == '\r' {
      assert ReplaceChar(one, '\r', "\\r") == "\\r";
    }
  }

  /** Replacing pass by pass is the same as escaping character by character. */
  lemma {:induction false} EscapeIsPerCharacter(s: string)
    ensures Passes(s) == EscapeEach(s)
    decreases |s|
  {
    if |s| > 0 {
      assert s == [s[0]] + s[1..];
      PassesAppend([s[0]], s[1..]);
      PassesOfChar(s[0]);
      EscapeIsPerCharacter(s[1..]);
    }
  }

  /** The output grows by exactly one character per escaped input character. */
  lemma {:induction false} EscapedLength(s: string)
    ensures |EscapeForLua(s)| == |s| + CountSpecial(s)
    decreases |s|
  {
    if |s| > 0 {
      EscapedLength(s[1..]);
    }
  }

  /** The output holds no raw line feed or carriage return: the literal stays on one line. */
  lemma {:induction false} EscapedHasNoLineBreaks(s: string)
    ensures '\n' !in EscapeForLua(s) && '\r' !in EscapeForLua(s)
    decreases |s|
  {
    if |s| > 0 {
      EscapedHasNoLineBreaks(s[1..]);
      assert EscapeForLua(s) == EscapeChar(s[0]) + EscapeForLua(s[1..]);
    }
  }

  /** What Lua reads back from a backslash escape. */
  function UnescapeChar(c: char): char {
    if c == 'n' then '\n' else if c == 'r' then '\r' else c
  }

  /** Reading the body of a double-quoted Lua literal back into text. */
  function Unescape(r: string): string
    decreases |r|
  {
    if |r| == 0 then ""
    else if r[0] == '\\' && |r| >= 2 then [UnescapeChar(r[1])] + Unescape(r[2..])
    else [r[0]] + Unescape(r[1..])
  }

  /**
   * The body of a double-quoted Lua literal: plain characters other than the four
   * special ones, and two-character escapes `\\`, `\"`, `\n`, `\r`.
   */
  predicate WellEscaped(r: string)
    decreases |r|
  {
    if |r| == 0 then true
    else if r[0] == '\\' then |r| >= 2 && r[1] in "\\\"nr" && WellEscaped(r[2..])
    else !IsSpecial(r[0]) && WellEscaped(r[1..])
  }

  lemma UnescapeAfterEscapeChar(c: char, t: string)
    ensures Unescape(EscapeChar(c) + t) == [c] + Unescape(t)
  {
    var e := EscapeChar(c);
    var r := e + t;
    if IsSpecial(c) {
      assert |e| == 2 && e[0] == '\\' && UnescapeChar(e[1]) == c;
      assert r[0] == '\\' && r[1] == e[1] && r[2..] == t;
    } else {
      assert e == [c] && r[0] == c != '\\';
      assert r[1..] == t;
    }
  }

  /** Unescaping the output gives back the input. */
  lemma {:induction false} UnescapeEscaped(s: string)
    ensures Unescape(EscapeForLua(s)) == s
    decreases |s|
  {
    if |s| > 0 {
      UnescapeAfterEscapeChar(s[0], EscapeForLua(s[1..]));
      UnescapeEscaped(s[1..]);
      assert s == [s[0]] + s[1..];
    }
  }

  /** The output is a well-formed literal body: every quote and backslash in it is escaped. */
  lemma {:induction false} EscapedIsWellFormed(s: string)
    ensures WellEscaped(EscapeForLua(s))
    decreases |s|
  {
    if |s| > 0 {
      var r := EscapeForLua(s);
      var t := EscapeForLua(s[1..]);
      EscapedIsWellFormed(s[1..]);
      if IsSpecial(s[0]) {
        assert r[2..] == t;
      } else {
        assert r[1..] == t;
      }
    }
  }

  // ---------------------------------------------------------------------------
  // Display truncation and the player accessor
  // ---------------------------------------------------------------------------

  /** `truncateCode`: a positive limit cuts longer code to the limit and appends `...`. */
  function TruncateCode(code: string, maxLength: int): (r: string)
    ensures maxLength <= 0 || |code| <= maxLength ==> r == code
    ensures 0 < maxLength < |code| ==> |r| == maxLength + 3 && StartsWith(r, code[..maxLength]) && EndsWith(r, "...")
    ensures maxLength > 0 ==> |r| <= maxLength + 3
  {
    if maxLength > 0 && |code| > maxLength then code[..maxLength] + "..." else code
  }

  /** A player target made only of digits is an index; anything else is a name. */
  predicate IsPlayerIndex(target: string) {
    |target| > 0 && AllDigits(target)
  }

  /** `getPlayerAccessor`: `game.players[<index>]` or `game.players["<name>"]`. */
  function PlayerAccessor(target: string): (r: string)
    ensures StartsWith(r, "game.players[") && EndsWith(r, "]")
    ensures IsPlayerIndex(target) <==> !StartsWith(r, "game.players[\"")
  {
    if IsPlayerIndex(target) then
      var r := "game.players[" + target + "]";
      assert r[13] == target[0];
      r
    else "game.players[\"" + target + "\"]"
  }

  /** No character that a double-quoted Lua literal would need escaped. */
  predicate PlainName(t: string) {
    forall i :: 0 <= i < |t| ==> !IsSpecial(t[i])
  }

  /**
   * The player an accessor selects, as Lua reads it: a bracketed index, or a
   * double-quoted literal read by the escape rules; `None` when the literal is not
   * well formed.
   */
  function AccessorTarget(accessor: string): (target: Option<string>)
  {
    if !StartsWith(accessor, "game.players[") || !EndsWith(accessor, "]") || |accessor| < 14 then None
    else
      var inner := accessor[13..|accessor| - 1];
      if |inner| >= 2 && inner[0] == '"' && inner[|inner| - 1] == '"' then
        var body := inner[1..|inner| - 1];
        if WellEscaped(body) then Some(Unescape(body)) else None
      else Some(inner)
  }

  /**
   * The name goes between the quotes without escaping, so the accessor selects the
   * configured player exactly when the target is an index or a name with no
   * character Lua would need escaped.
   */
  lemma AccessorNamesTarget(target: string)
    ensures AccessorTarget(PlayerAccessor(target)) == Some(target) <==> IsPlayerIndex(target) || PlainName(target)
  {
    var a := PlayerAccessor(target);
    if IsPlayerIndex(target) {
      assert a[13..|a| - 1] == target;
      assert target[0] != '"';
    } else {
      var inner := a[13..|a| - 1];
      assert inner == "\"" + target + "\"";
      assert inner[1..|inner| - 1] == target;
      if PlainName(target) {
        PlainReadsBack(target);
      }
      if WellEscaped(target) && Unescape(target) == target {
        ReadBackIsPlain(target);
      }
    }
  }

  /** Text without special characters is a literal body that reads back as itself. */
  lemma {:induction false} PlainReadsBack(t: string)
    requires PlainName(t)
    ensures WellEscaped(t) && Unescape(t) == t
    decreases |t|
  {
    if |t| > 0 {
      assert PlainName(t[1..]) by {
        forall i | 0 <= i < |t| - 1
          ensures !IsSpecial(t[1..][i])
        {
          assert t[1..][i] == t[i + 1];
        }
      }
      PlainReadsBack(t[1..]);
      assert t == [t[0]] + t[1..];
    }
  }

  /** A literal body that reads back as itself holds no escape and no special character. */
  lemma {:induction false} ReadBackIsPlain(t: string)
    requires WellEscaped(t) && Unescape(t) == t
    ensures PlainName(t)
    decreases |t|
  {
    if |t| > 0 {
      if t[0] == '\\' {
        UnescapeShrinks(t[2..]);
      } else {
        assert Unescape(t) == [t[0]] + Unescape(t[1..]);
        assert Unescape(t[1..]) == Unescape(t)[1..] == t[1..];
        ReadBackIsPlain(t[1..]);
        forall i | 0 <= i < |t|
          ensures !IsSpecial(t[i])
        {
          if i > 0 {
            assert t[i] == t[1..][i - 1];
          }
        }
      }
    }
  }

  /** Reading escapes never lengthens the text. */
  lemma {:induction false} UnescapeShrinks(r: string)
    ensures |Unescape(r)| <= |r|
    decreases |r|
  {
    if |r| > 0 {
      if r[0] == '\\' && |r| >= 2 {
        UnescapeShrinks(r[2..]);
      } else {
        UnescapeShrinks(r[1..]);
      }
    }
  }

  // ---------------------------------------------------------------------------
  // Wrapping user code
  // ---------------------------------------------------------------------------

  /** The settings the eval script reads from its environment. */
  datatype EvalConfig = EvalConfig(playerTarget: string, showCommands: bool, maxDisplayLength: int)

  /** `w` occurs at `i` as a whole word, as `\bw\b` matches it. */
  predicate WholeWordAt(s: string, w: string, i: int) {
    && OccursAt(s, w, i)
    && (i == 0 || !IsWordChar(s[i - 1]))
    && (i + |w| == |s| || !IsWordChar(s[i + |w|]))
  }

  predicate MentionsWord(s: string, w: string) {
    exists i | 0 <= i <= |s| :: WholeWordAt(s, w, i)
  }

  /** `/\b(player|surface|force)\b/.test(code)`. */
  predicate NeedsPlayer(code: string) {
    MentionsWord(code, "player") || MentionsWord(code, "surface") || MentionsWord(code, "force")
  }

  /** The locals defined for code that mentions them, with an early error return when nobody is connected. */
  function PlayerSetup(accessor: string): string {
    "local player = " + accessor + PlayerSetupTail
  }

  const PlayerSetupTail: string :=
    "; if not player then rcon.print(\"ERROR: No player connected yet. Connect to the server first.\"); return end;"
    + " local surface = player.surface; local force = player.force; "

  /** The in-game echo of the command, escaped into a `game.print` literal. */
  function CommandDisplay(shown: string): string {
    EchoHead + EscapeForLua(shown) + "\"); "
  }

  const EchoHead: string := "game.print(\"[color=0.5,0.8,1][AI][/color] "

  /** Code that does not print its own result has its value printed through serpent. */
  function ReturnWrap(code: string): string {
    "rcon.print(serpent.line((function() return " + code + " end)()))"
  }

  /** The player setup, present only when the code mentions one of the three words. */
  function SetupPart(code: string, cfg: EvalConfig): string {
    if NeedsPlayer(code) then PlayerSetup(PlayerAccessor(cfg.playerTarget)) else ""
  }

  /** The echo, present only when commands are shown and the code mentions one of the three words. */
  function EchoPart(code: string, cfg: EvalConfig): string {
    if cfg.showCommands && NeedsPlayer(code) then CommandDisplay(TruncateCode(code, cfg.maxDisplayLength)) else ""
  }

  /** The code itself when it prints on its own, its wrapped value otherwise. */
  function BodyPart(code: string): string {
    if Contains(code, "rcon.print") then code else ReturnWrap(code)
  }

  lemma ConcatEnds(a: string, b: string, c: string)
    ensures StartsWith(a + b + c, a) && EndsWith(a + b + c, c)
  {
    assert (a + b + c)[..|a|] == a;
    assert (a + b + c)[|a + b|..] == c;
  }

  /** `wrapLuaCode`. */
  function WrapLuaCode(code: string, cfg: EvalConfig): (r: string)
    ensures NeedsPlayer(code) ==> StartsWith(r, PlayerSetup(PlayerAccessor(cfg.playerTarget)))
    ensures !NeedsPlayer(code) ==> r == (if Contains(code, "rcon.print") then code else ReturnWrap(code))
    ensures Contains(code, "rcon.print") ==> EndsWith(r, code)
    ensures !Contains(code, "rcon.print") ==> EndsWith(r, ReturnWrap(code))
    ensures NeedsPlayer(code) && !cfg.showCommands ==> r == PlayerSetup(PlayerAccessor(cfg.playerTarget)) + BodyPart(code)
    ensures NeedsPlayer(code) && cfg.showCommands ==>
              r == PlayerSetup(PlayerAccessor(cfg.playerTarget)) + CommandDisplay(TruncateCode(code, cfg.maxDisplayLength)) + BodyPart(code)
  {
    ConcatEnds(SetupPart(code, cfg), EchoPart(code, cfg), BodyPart(code));
    assert !NeedsPlayer(code) ==> SetupPart(code, cfg) + EchoPart(code, cfg) + BodyPart(code) == BodyPart(code);
    SetupPart(code, cfg) + EchoPart(code, cfg) + BodyPart(code)
  }

  /** Code that opens with a `local player = ` line mentions `player` as a word. */
  lemma DeclaringPlayerMentionsIt(code: string)
    requires StartsWith(code, "local player = ")
    ensures NeedsPlayer(code)
  {
    assert code[..15] == "local player = ";
    assert WholeWordAt(code, "player", 6) by {
      assert code[6..12] == "player";
    }
  }

  /** The result opens with the player setup exactly when the code mentions one of the three words. */
  lemma SetupIffNeedsPlayer(code: string, cfg: EvalConfig)
    ensures StartsWith(WrapLuaCode(code, cfg), "local player = ") <==> NeedsPlayer(code)
  {
    if NeedsPlayer(code) {
      SetupOpensWithPlayer(code, cfg);
    } else if !Contains(code, "rcon.print") {
      WrappedOpensWithPrint(code, cfg);
    } else if StartsWith(WrapLuaCode(code, cfg), "local player = ") {
      DeclaringPlayerMentionsIt(code);
    }
  }

  lemma SetupOpensWithPlayer(code: string, cfg: EvalConfig)
    requires NeedsPlayer(code)
    ensures StartsWith(WrapLuaCode(code, cfg), "local player = ")
  {
    var r := WrapLuaCode(code, cfg);
    var setup := PlayerSetup(PlayerAccessor(cfg.playerTarget));
    assert StartsWith(setup, "local player = ") by {
      ConcatEnds("local player = ", PlayerAccessor(cfg.playerTarget), PlayerSetupTail);
    }
    PrefixOfPrefix(r, setup, "local player = ");
  }

  lemma PrefixOfPrefix(r: string, s: string, p: string)
    requires StartsWith(r, s) && StartsWith(s, p)
    ensures StartsWith(r, p)
  {
    assert r[..|p|] == r[..|s|][..|p|];
  }

  lemma WrappedOpensWithPrint(code: string, cfg: EvalConfig)
    requires !NeedsPlayer(code) && !Contains(code, "rcon.print")
    ensures WrapLuaCode(code, cfg)[0] == 'r'
  {
    var head := "rcon.print(serpent.line((function() return ";
    var r := WrapLuaCode(code, cfg);
    assert r == head + code + " end)()))";
    assert r[0] == (head + code + " end)()))")[0] == head[0];
  }

  /**
   * Turning `showCommands` on only inserts the echo right after the player setup, and
   * only when the setup is there.
   */
  lemma ShowCommandsOnlyAddsEcho(code: string, cfg: EvalConfig)
    ensures var off := WrapLuaCode(code, cfg.(showCommands := false));
            var on := WrapLuaCode(code, cfg.(showCommands := true));
            var n := |SetupPart(code, cfg)|;
            && n <= |off|
            && on == off[..n] + (if NeedsPlayer(code) then CommandDisplay(TruncateCode(code, cfg.maxDisplayLength)) else "") + off[n..]
  {
    var off := WrapLuaCode(code, cfg.(showCommands := false));
    var setup := SetupPart(code, cfg);
    assert off == setup + BodyPart(code);
    assert off[..|setup|] == setup && off[|setup|..] == BodyPart(code);
  }

  /** The echo's literal body is well formed and reads back as the code shown. */
  lemma EchoReadsBack(shown: string)
    ensures var d := CommandDisplay(shown);
            && StartsWith(d, EchoHead) && EndsWith(d, "\"); ")
            && WellEscaped(d[|EchoHead|..|d| - 4])
            && Unescape(d[|EchoHead|..|d| - 4]) == shown
  {
    ConcatEnds(EchoHead, EscapeForLua(shown), "\"); ");
    var d := CommandDisplay(shown);
    assert d[|EchoHead|..|d| - 4] == EscapeForLua(shown);
    EscapedIsWellFormed(shown);
    UnescapeEscaped(shown);
  }

  /** A word delimited by non-word characters (or the ends of the code) triggers the player setup. */
  lemma DelimitedWordNeedsPlayer(a: string, w: string, b: string)
    requires w == "player" || w == "surface" || w == "force"
    requires |a| == 0 || !IsWordChar(a[|a| - 1])
    requires |b| == 0 || !IsWordChar(b[0])
    ensures NeedsPlayer(a + w + b)
  {
    var s := a + w + b;
    assert s[|a|..|a| + |w|] == w;
    assert |a| > 0 ==> s[|a| - 1] == a[|a| - 1];
    assert |b| > 0 ==> s[|a| + |w|] == b[0];
    assert WholeWordAt(s, w, |a|);
  }
}
