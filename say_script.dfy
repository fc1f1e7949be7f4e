/**
 * The chat script, `pnpm say <message>`: the message is escaped for a double-quoted
 * Lua literal, placed in a `game.print` behind the green "[AI Chat]" tag, and sent
 * over RCON with up to three connect-send-disconnect rounds.
 *
 * The environment's RCON password is a parameter; the transport is the `send`
 * function of the retry module.
 */
module SayScript {
  import opened Text
  import LuaSnippets
  import Retry

  const MaxRetries := 3

  /** Everything in front of the escaped message. */
  const CommandHead := "/silent-command game.print(\"[color=0.3,1,0.3][AI Chat][/color] "

  /** Everything after the escaped message: the closing quote and parenthesis. */
  const CommandTail := "\")"

  /** The console command that prints `message` in the game chat. */
  function ChatCommand(message: string): string {
    CommandHead + LuaSnippets.EscapeForLua(message) + CommandTail
  }

  /**
   * The command is the fixed head, a well-formed literal body that Lua reads back as
   * exactly the message and holds no raw line break, and the fixed tail.
   */
  lemma ChatLiteralReadsBack(message: string)
    ensures var c := ChatCommand(message);
            && StartsWith(c, CommandHead) && EndsWith(c, CommandTail)
            && |c| >= |CommandHead| + |CommandTail|
            && LuaSnippets.WellEscaped(c[|CommandHead|..|c| - |CommandTail|])
            && LuaSnippets.Unescape(c[|CommandHead|..|c| - |CommandTail|]) == message
            && '\n' !in c[|CommandHead|..|c| - |CommandTail|] && '\r' !in c[|CommandHead|..|c| - |CommandTail|]
  {
    var e := LuaSnippets.EscapeForLua(message);
    Framed(CommandHead, e, CommandTail);
    LuaSnippets.EscapedIsWellFormed(message);
    LuaSnippets.UnescapeEscaped(message);
    LuaSnippets.EscapedHasNoLineBreaks(message);
  }

  /** The three pieces of a concatenation, read back by position; every character comes from one of them. */
  lemma Framed(h: string, e: string, t: string)
    ensures var c := h + e + t;
            && c[..|h|] == h && c[|c| - |t|..] == t && c[|h|..|c| - |t|] == e
            && forall x :: x in c <==> x in h || x in e || x in t
  {
    var c := h + e + t;
    assert c[..|h|] == h;
    assert c[|c| - |t|..] == t;
    assert c[|h|..|c| - |t|] == e;
  }

  /** Distinct messages give distinct commands. */
  lemma ChatCommandIsInjective(a: string, b: string)
    requires ChatCommand(a) == ChatCommand(b)
    ensures a == b
  {
    ChatLiteralReadsBack(a);
    ChatLiteralReadsBack(b);
  }

  datatype SayResult =
    | Usage
    | NoPassword
    | Delivered(message: string)
    | RconError(failure: Retry.Failure)

  /**
   * The script: a missing or empty message is the usage error, a missing password is
   * reported next, and otherwise the command is sent with three rounds.
   */
  method Say(message: Option<string>, password: string, send: (string, nat) -> Retry.Attempt)
    returns (r: SayResult)
    ensures message.None? || message == Some("") ==> r == Usage
    ensures message.Some? && message.value != "" && password == "" ==> r == NoPassword
    ensures message.Some? && message.value != "" && password != "" ==>
              var command := ChatCommand(message.value);
              && (r == Delivered(message.value) <==> exists k :: 1 <= k <= MaxRetries && send(command, k).Replied?)
              && (r.RconError? <==> forall k :: 1 <= k <= MaxRetries ==> send(command, k).Failed?)
              && (r.RconError? ==> r.failure == Retry.Thrown(send(command, MaxRetries).error))
  {
    if message.None? || message.value == "" {
      return Usage;
    }
    if password == "" {
      return NoPassword;
    }
    var command := ChatCommand(message.value);
    var outcome, made := Retry.ExecuteWithRetry(send, command, MaxRetries);
    match outcome {
      case Sent(_) =>
        r := Delivered(message.value);
        assert send(command, made).Replied?;
      case Raised(failure) =>
        r := RconError(failure);
        assert forall k :: 1 <= k <= MaxRetries ==> send(command, k).Failed? by {
          assert made == MaxRetries;
        }
    }
  }
}
