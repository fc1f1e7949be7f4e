/**
 * The chat-log tail reader of the eval script: a persisted cursor
 * `(lastPosition, lastModified)` over the game server's log, rotation detection,
 * and the extraction of player chat lines from the newly appended text.
 *
 * The log is an abstract file (its text, whose length is its size, and an integer
 * modification time); the cursor file is an in-memory store.
 */
module ChatLog {
  import opened Text

  /** The persisted `ChatState`: how far the log has been read, and the log's mtime at that point. */
  datatype Cursor = Cursor(lastPosition: nat, lastModified: int)

  /** What `loadChatState` returns when the state file is missing or does not parse. */
  const DefaultCursor := Cursor(0, 0)

  /**
   * The log file as `existsSync`/`statSync`/`readSync` see it: absent, present but
   * failing to stat or read, or present with its text and modification time.
   */
  datatype LogFile = Missing | Unreadable | Present(content: string, mtime: int)

  /** A chat line reported to the caller, player and text trimmed. */
  datatype ChatMessage = ChatMessage(player: string, message: string)

  /** The two capture groups of the chat pattern, as matched (untrimmed). */
  datatype ChatCapture = ChatCapture(player: string, message: string)

  /** What one read returns, and the cursor it persists (`None`: nothing saved). */
  datatype ReadResult = ReadResult(messages: seq<ChatMessage>, saved: Option<Cursor>)

  /**
   * How writing the state file goes: it succeeds, it fails to open (the file is left
   * as it was), or it fails after the open has truncated the file (nothing parses).
   */
  datatype WriteAccess = Writable | OpenFails | WriteFails

  /** The state file after `saveChatState(c)` with the given outcome; `None`: missing or unparsable. */
  function StoredAfterSave(access: WriteAccess, previous: Option<Cursor>, c: Cursor): Option<Cursor> {
    match access
    case Writable => Some(c)
    case OpenFails => previous
    case WriteFails => None
  }

  /** `loadChatState` on the state file's contents: the saved cursor, or the zero cursor. */
  function LoadCursor(stored: Option<Cursor>): Cursor {
    match stored
    case None => DefaultCursor
    case Some(c) => c
  }

  /**
   * The state file holding the cursor. `stored` is `None` when the file is missing or
   * does not parse; `access` says how writing it goes (the error is ignored).
   */
  class CursorStore {
    var stored: Option<Cursor>
    const access: WriteAccess

    constructor (stored: Option<Cursor>, access: WriteAccess)
      ensures this.stored == stored && this.access == access
    {
      this.stored := stored;
      this.access := access;
    }

    /** `loadChatState`. */
    function Load(): Cursor
      reads this
    {
      LoadCursor(stored)
    }

    /** `saveChatState`: best effort, a failed write is ignored whatever it left behind. */
    method Save(c: Cursor)
      modifies this
      ensures stored == StoredAfterSave(access, old(stored), c)
    {
      match access
      case Writable => stored := Some(c);
      case OpenFails =>
      case WriteFails => stored := None;
    }
  }

  // ---------------------------------------------------------------------------
  // The chat pattern  ^(?:\s*[\d.]+\s+)?\[CHAT\]\s+([^:]+):\s*(.+)$
  // ---------------------------------------------------------------------------

  /** The characters the optional timestamp `\s*[\d.]+\s+` is made of. */
  predicate IsStampChar(c: char) {
    IsWhitespace(c) || IsDigit(c) || c == '.'
  }

  predicate IsDigitOrDot(c: char) {
    IsDigit(c) || c == '.'
  }

  predicate AllDigitsOrDots(s: string) {
    forall i | 0 <= i < |s| :: IsDigitOrDot(s[i])
  }

  predicate NoLineTerminator(s: string) {
    forall i | 0 <= i < |s| :: !IsLineTerminator(s[i])
  }

  /** Length of the longest prefix made of timestamp characters. */
  function StampRun(s: string): (n: nat)
    ensures n <= |s|
    ensures forall i | 0 <= i < n :: IsStampChar(s[i])
    ensures n < |s| ==> !IsStampChar(s[n])
  {
    if |s| == 0 || !IsStampChar(s[0]) then 0 else 1 + StampRun(s[1..])
  }

  /** Length of the longest prefix matching `[\d.]*`. */
  function DigitDotRun(s: string): (n: nat)
    ensures n <= |s| && AllDigitsOrDots(s[..n])
    ensures n < |s| ==> !IsDigitOrDot(s[n])
  {
    if |s| == 0 || !IsDigitOrDot(s[0]) then 0
    else
      var n := 1 + DigitDotRun(s[1..]);
      assert s[..n] == [s[0]] + s[1..][..n - 1];
      n
  }

  /** Whether `s` as a whole matches `\s*[\d.]+\s+`. */
  predicate MatchesTimestamp(s: string) {
    var a := LeadingWhitespace(s);
    var d := DigitDotRun(s[a..]);
    0 < d && a + d < |s| && AllWhitespace(s[a + d..])
  }

  /**
   * What `\s+([^:]+)` captures from the text between `[CHAT]` and the first colon:
   * the greedy `\s+` takes the blank run and gives one character back when nothing
   * would be left for the player name.
   */
  function PlayerCapture(r: string): (player: Option<string>)
    ensures player.Some? <==> |r| >= 2 && IsWhitespace(r[0])
    ensures player.Some? ==> 0 < |player.value| < |r| && EndsWith(r, player.value)
    ensures player.Some? ==> AllWhitespace(r[..|r| - |player.value|])
    ensures player.Some? && !AllWhitespace(r) ==> !IsWhitespace(player.value[0])
  {
    if |r| < 2 || !IsWhitespace(r[0]) then None
    else
      var w := LeadingWhitespace(r);
      if w < |r| then Some(r[w..]) else Some(r[|r| - 1..])
  }

  /**
   * What `\s*(.+)$` captures from the text after the colon: `.` stops at line
   * terminators, and the greedy `\s*` gives one character back when `.+` would
   * otherwise be empty.
   */
  function MessageCapture(u: string): (message: Option<string>)
    ensures message.Some? ==> 0 < |message.value| <= |u| && EndsWith(u, message.value)
    ensures message.Some? ==> NoLineTerminator(message.value)
    ensures message.Some? ==> AllWhitespace(u[..|u| - |message.value|])
    ensures message.Some? && IsWhitespace(message.value[0]) ==> |message.value| == 1
  {
    var w := LeadingWhitespace(u);
    if w < |u| then
      if NoLineTerminator(u[w..]) then Some(u[w..]) else None
    else if |u| > 0 && !IsLineTerminator(u[|u| - 1]) then Some(u[|u| - 1..])
    else None
  }

  /** `line.match(chatRegex)`: the two capture groups, or `None` when the line is not chat. */
  function ParseChatLine(line: string): Option<ChatCapture> {
    ParseFrom(line, StampRun(line))
  }

  /** The pattern, with the optional timestamp taken to be the first `p` characters. */
  function ParseFrom(line: string, p: nat): Option<ChatCapture>
    requires p <= |line|
  {
    if p > 0 && !MatchesTimestamp(line[..p]) then None
    else if !TagAt(line, p) then None
    else ParseAfterTag(line[p + 6..])
  }

  /** `[CHAT]` occurs at position `p`. */
  predicate TagAt(line: string, p: nat) {
    p + 6 <= |line| && line[p..p + 6] == "[CHAT]"
  }

  /** The part of the pattern after `[CHAT]`: `\s+([^:]+):\s*(.+)$`. */
  function ParseAfterTag(t: string): Option<ChatCapture> {
    match IndexOf(t, ":")
    case None => None
    case Some(c) => ParseAround(t, c)
  }

  /** The captures on either side of the colon at `c`. */
  function ParseAround(t: string, c: nat): Option<ChatCapture>
    requires c < |t|
  {
    var player := PlayerCapture(t[..c]);
    var message := MessageCapture(t[c + 1..]);
    if player.Some? && message.Some? then Some(ChatCapture(player.value, message.value)) else None
  }

  // The same pattern, stated as the shape of a line.

  /** `s` is a timestamp token: blanks, then digits and dots, then at least one blank. */
  ghost predicate IsTimestamp(s: string) {
    exists i, j :: 0 <= i < j < |s| && AllWhitespace(s[..i]) && AllDigitsOrDots(s[i..j]) && AllWhitespace(s[j..])
  }

  /** The line made of an optional timestamp, `[CHAT]`, a blank gap, a name, `:`, padding and a text. */
  function ChatLine(stamp: string, gap: string, player: string, pad: string, message: string): string {
    stamp + "[CHAT]" + (gap + player + ":" + pad + message)
  }

  /** What each part of a chat line may be. */
  ghost predicate ChatParts(stamp: string, gap: string, player: string, pad: string, message: string) {
    && (stamp == "" || IsTimestamp(stamp))
    && |gap| > 0 && AllWhitespace(gap)
    && |player| > 0 && ':' !in player
    && AllWhitespace(pad)
    && |message| > 0 && NoLineTerminator(message)
  }

  /** Whatever the parser accepts is a chat line, with the captures as its name and text. */
  lemma ParseChatLineSound(line: string) returns (stamp: string, gap: string, pad: string)
    requires ParseChatLine(line).Some?
    ensures ChatParts(stamp, gap, ParseChatLine(line).value.player, pad, ParseChatLine(line).value.message)
    ensures line == ChatLine(stamp, gap, ParseChatLine(line).value.player, pad, ParseChatLine(line).value.message)
  {
    stamp, gap, pad := ParseFromSound(line, StampRun(line));
  }

  lemma ParseFromSound(line: string, p: nat) returns (stamp: string, gap: string, pad: string)
    requires p <= |line| && ParseFrom(line, p).Some?
    ensures ChatParts(stamp, gap, ParseFrom(line, p).value.player, pad, ParseFrom(line, p).value.message)
    ensures line == ChatLine(stamp, gap, ParseFrom(line, p).value.player, pad, ParseFrom(line, p).value.message)
  {
    ParseFromSteps(line, p);
    stamp := line[..p];
    if p > 0 {
      MatchedTimestamp(stamp);
    }
    gap, pad := ParseAfterTagSound(line[p + 6..]);
    TagSplit(line, p);
  }

  /** What a successful `ParseFrom` has checked. */
  lemma ParseFromSteps(line: string, p: nat)
    requires p <= |line| && ParseFrom(line, p).Some?
    ensures p == 0 || MatchesTimestamp(line[..p])
    ensures TagAt(line, p)
    ensures ParseAfterTag(line[p + 6..]) == ParseFrom(line, p)
  {
  }

  lemma ParseAfterTagSound(t: string) returns (gap: string, pad: string)
    requires ParseAfterTag(t).Some?
    ensures |gap| > 0 && AllWhitespace(gap) && |ParseAfterTag(t).value.player| > 0 && ':' !in ParseAfterTag(t).value.player
    ensures AllWhitespace(pad) && |ParseAfterTag(t).value.message| > 0 && NoLineTerminator(ParseAfterTag(t).value.message)
    ensures t == gap + ParseAfterTag(t).value.player + ":" + pad + ParseAfterTag(t).value.message
  {
    var cap := ParseAfterTag(t).value;
    var c := IndexOf(t, ":").value;
    AroundCaptures(t, c);
    gap, pad := CapturedParts(t, c, cap.player, cap.message);
  }

  lemma AroundCaptures(t: string, c: nat)
    requires c < |t| && ParseAround(t, c).Some?
    ensures PlayerCapture(t[..c]) == Some(ParseAround(t, c).value.player)
    ensures MessageCapture(t[c + 1..]) == Some(ParseAround(t, c).value.message)
  {
  }

  lemma TagSplit(line: string, p: nat)
    requires TagAt(line, p)
    ensures line == line[..p] + "[CHAT]" + line[p + 6..]
  {
    assert line == line[..p] + line[p..p + 6] + line[p + 6..];
  }

  lemma MatchedTimestamp(s: string)
    requires MatchesTimestamp(s)
    ensures IsTimestamp(s)
  {
    var a := LeadingWhitespace(s);
    var d := DigitDotRun(s[a..]);
    assert s[a..a + d] == s[a..][..d];
  }

  /** The text after `[CHAT]` is a blank gap, the captured name, the colon, padding and the captured text. */
  lemma CapturedParts(t: string, c: nat, player: string, message: string) returns (gap: string, pad: string)
    requires IndexOf(t, ":") == Some(c)
    requires PlayerCapture(t[..c]) == Some(player)
    requires MessageCapture(t[c + 1..]) == Some(message)
    ensures |gap| > 0 && AllWhitespace(gap) && |player| > 0 && ':' !in player
    ensures AllWhitespace(pad) && |message| > 0 && NoLineTerminator(message)
    ensures t == gap + player + ":" + pad + message
  {
    var before, after := t[..c], t[c + 1..];
    gap := before[..|before| - |player|];
    pad := after[..|after| - |message|];
    assert before == gap + player by {
      SuffixSplit(before, player);
    }
    assert after == pad + message by {
      SuffixSplit(after, message);
    }
    assert ':' !in player by {
      ColonFreeBefore(t, c, gap, player);
    }
    assert t == before + ":" + after by {
      ColonSplit(t, c);
    }
    Regroup(gap, player, ":", pad, message);
  }

  lemma Regroup(a: string, b: string, c: string, d: string, e: string)
    ensures (a + b) + c + (d + e) == a + b + c + d + e
  {
  }

  /** A text that ends with `s` is its first part followed by `s`. */
  lemma SuffixSplit(r: string, s: string)
    requires EndsWith(r, s)
    ensures r == r[..|r| - |s|] + s
  {
  }

  /** Text in front of the first colon holds no colon. */
  lemma ColonFreeBefore(t: string, c: nat, gap: string, player: string)
    requires c <= |t| && t[..c] == gap + player
    requires forall j :: 0 <= j < c ==> !OccursAt(t, ":", j)
    ensures ':' !in player
  {
    forall i | 0 <= i < |player|
      ensures player[i] != ':'
    {
      var j := |gap| + i;
      assert !OccursAt(t, ":", j);
      assert t[j..j + 1] == [t[j]];
      assert t[j] == t[..c][j] == player[i];
    }
  }

  lemma ColonSplit(t: string, c: nat)
    requires OccursAt(t, ":", c)
    ensures t == t[..c] + ":" + t[c + 1..]
  {
    assert t == t[..c] + t[c..c + 1] + t[c + 1..];
  }

  lemma StampRunOfChatLine(stamp: string, rest: string)
    requires stamp == "" || IsTimestamp(stamp)
    requires StartsWith(rest, "[CHAT]")
    ensures StampRun(stamp + rest) == |stamp|
  {
    var s := stamp + rest;
    var n := StampRun(s);
    if stamp != "" {
      var i, j :| 0 <= i < j < |stamp| && AllWhitespace(stamp[..i]) && AllDigitsOrDots(stamp[i..j]) && AllWhitespace(stamp[j..]);
      forall k | 0 <= k < |stamp|
        ensures IsStampChar(s[k])
      {
        if k < i {
          assert stamp[..i][k] == s[k];
        } else if k < j {
          assert stamp[i..j][k - i] == s[k];
        } else {
          assert stamp[j..][k - j] == s[k];
        }
      }
    }
    assert s[|stamp|] == '[';
  }

  lemma TimestampMatches(stamp: string)
    requires IsTimestamp(stamp)
    ensures MatchesTimestamp(stamp)
  {
    var i, j :| 0 <= i < j < |stamp| && AllWhitespace(stamp[..i]) && AllDigitsOrDots(stamp[i..j]) && AllWhitespace(stamp[j..]);
    BlanksBeforeRun(stamp, i, j);
    RunBeforeBlanks(stamp, i, j);
    assert stamp[i..][j - i..] == stamp[j..];
  }

  /** Blanks up to `i` followed by a digit or dot: the leading blank run ends at `i`. */
  lemma BlanksBeforeRun(stamp: string, i: nat, j: nat)
    requires i < j <= |stamp| && AllWhitespace(stamp[..i]) && AllDigitsOrDots(stamp[i..j])
    ensures LeadingWhitespace(stamp) == i
  {
    assert stamp[i..j][0] == stamp[i];
    LeadingWhitespaceIs(stamp, i);
  }

  /** Digits and dots from `i` to `j` followed by a blank: the run from `i` has length `j - i`. */
  lemma RunBeforeBlanks(stamp: string, i: nat, j: nat)
    requires i < j < |stamp| && AllDigitsOrDots(stamp[i..j]) && AllWhitespace(stamp[j..])
    ensures DigitDotRun(stamp[i..]) == j - i
  {
    var rest := stamp[i..];
    assert rest[..j - i] == stamp[i..j];
    assert rest[j - i] == stamp[j..][0];
    DigitDotRunIs(rest, j - i);
  }

  lemma DigitDotRunIs(s: string, n: nat)
    requires n < |s| && AllDigitsOrDots(s[..n]) && !IsDigitOrDot(s[n])
    ensures DigitDotRun(s) == n
  {
    var d := DigitDotRun(s);
    forall k | 0 <= k < n
      ensures IsDigitOrDot(s[k])
    {
      assert s[..n][k] == s[k];
    }
    forall k | 0 <= k < d
      ensures IsDigitOrDot(s[k])
    {
      assert s[..d][k] == s[k];
    }
  }

  /**
   * Every chat line is accepted, and the trimmed captures are its trimmed name and
   * text whichever way the line is cut into parts; a name or text that starts with a
   * non-blank character is captured exactly.
   */
  lemma ParseChatLineComplete(stamp: string, gap: string, player: string, pad: string, message: string)
    requires ChatParts(stamp, gap, player, pad, message)
    ensures ParseChatLine(ChatLine(stamp, gap, player, pad, message)).Some?
    ensures Trim(ParseChatLine(ChatLine(stamp, gap, player, pad, message)).value.player) == Trim(player)
    ensures Trim(ParseChatLine(ChatLine(stamp, gap, player, pad, message)).value.message) == Trim(message)
    ensures !IsWhitespace(player[0]) ==> ParseChatLine(ChatLine(stamp, gap, player, pad, message)).value.player == player
    ensures !IsWhitespace(message[0]) ==> ParseChatLine(ChatLine(stamp, gap, player, pad, message)).value.message == message
  {
    var t := gap + player + ":" + pad + message;
    var line := ChatLine(stamp, gap, player, pad, message);
    assert line == stamp + ("[CHAT]" + t);
    StampRunOfChatLine(stamp, "[CHAT]" + t);
    ParseFromOfChatLine(stamp, t);
    assert ParseChatLine(line) == ParseAfterTag(t);
    AfterTagComplete(gap, player, pad, message);
  }

  /** Past a well-formed timestamp and the tag, the parser looks only at what follows the tag. */
  lemma ParseFromOfChatLine(stamp: string, t: string)
    requires stamp == "" || IsTimestamp(stamp)
    ensures ParseFrom(stamp + ("[CHAT]" + t), |stamp|) == ParseAfterTag(t)
  {
    var line := stamp + ("[CHAT]" + t);
    if stamp != "" {
      TimestampMatches(stamp);
      assert line[..|stamp|] == stamp;
    }
    assert line[|stamp|..|stamp| + 6] == "[CHAT]";
    assert line[|stamp| + 6..] == t;
  }

  lemma AfterTagComplete(gap: string, player: string, pad: string, message: string)
    requires |gap| > 0 && AllWhitespace(gap) && |player| > 0 && ':' !in player
    requires AllWhitespace(pad) && |message| > 0 && NoLineTerminator(message)
    ensures ParseAfterTag(gap + player + ":" + pad + message).Some?
    ensures Trim(ParseAfterTag(gap + player + ":" + pad + message).value.player) == Trim(player)
    ensures Trim(ParseAfterTag(gap + player + ":" + pad + message).value.message) == Trim(message)
    ensures !IsWhitespace(player[0]) ==> ParseAfterTag(gap + player + ":" + pad + message).value.player == player
    ensures !IsWhitespace(message[0]) ==> ParseAfterTag(gap + player + ":" + pad + message).value.message == message
  {
    var t := gap + player + ":" + pad + message;
    var c := |gap| + |player|;
    FirstColon(gap, player, pad + message);
    assert t == (gap + player) + ":" + (pad + message);
    assert t[..c] == gap + player;
    assert t[c + 1..] == pad + message;
    PlayerPart(gap, player);
    MessagePart(pad, message);
  }

  /** The first colon of the text after the tag is the one that ends the name. */
  lemma FirstColon(gap: string, player: string, rest: string)
    requires ':' !in gap && ':' !in player
    ensures IndexOf(gap + player + ":" + rest, ":") == Some(|gap| + |player|)
  {
    var t := gap + player + ":" + rest;
    var c := |gap| + |player|;
    assert t[c..c + 1] == ":";
    assert OccursAt(t, ":", c);
    forall j | 0 <= j < c
      ensures !OccursAt(t, ":", j)
    {
      if j < |gap| {
        assert t[j] == gap[j];
      } else {
        assert t[j] == player[j - |gap|];
      }
    }
  }

  lemma PlayerPart(gap: string, player: string)
    requires |gap| > 0 && AllWhitespace(gap) && |player| > 0
    ensures PlayerCapture(gap + player).Some?
    ensures Trim(PlayerCapture(gap + player).value) == Trim(player)
    ensures !IsWhitespace(player[0]) ==> PlayerCapture(gap + player).value == player
  {
    var r := gap + player;
    assert IsWhitespace(r[0]) by {
      assert r[0] == gap[0];
    }
    var pc := PlayerCapture(r).value;
    assert Trim(pc) == Trim(player) by {
      SuffixSplit(r, pc);
      TrimIgnoresBlankPrefix(r[..|r| - |pc|], pc);
      TrimIgnoresBlankPrefix(gap, player);
    }
    if !IsWhitespace(player[0]) {
      assert pc == player by {
        assert r[|gap|] == player[0];
        LeadingWhitespaceOfBlankPrefix(gap, player);
        assert r[|gap|..] == player;
      }
    }
  }

  lemma MessagePart(pad: string, message: string)
    requires AllWhitespace(pad) && |message| > 0 && NoLineTerminator(message)
    ensures MessageCapture(pad + message).Some?
    ensures Trim(MessageCapture(pad + message).value) == Trim(message)
    ensures !IsWhitespace(message[0]) ==> MessageCapture(pad + message).value == message
  {
    var u := pad + message;
    var w := LeadingWhitespace(message);
    assert LeadingWhitespace(u) == |pad| + w by { LeadingWhitespaceOfBlankPrefix(pad, message); }
    if w < |message| {
      assert u[|pad| + w..] == message[w..];
      assert NoLineTerminator(message[w..]) by { NoLineTerminatorSuffix(message, w); }
    } else {
      assert u[|u| - 1] == message[|message| - 1];
    }
    var mc := MessageCapture(u).value;
    assert Trim(mc) == Trim(message) by {
      SuffixSplit(u, mc);
      TrimIgnoresBlankPrefix(u[..|u| - |mc|], mc);
      TrimIgnoresBlankPrefix(pad, message);
    }
    if !IsWhitespace(message[0]) {
      assert mc == message by {
        assert w == 0;
        assert mc == u[|pad|..];
      }
    }
  }

  lemma NoLineTerminatorSuffix(s: string, w: nat)
    requires w <= |s| && NoLineTerminator(s)
    ensures NoLineTerminator(s[w..])
  {
    forall i | 0 <= i < |s| - w
      ensures !IsLineTerminator(s[w..][i])
    {
      assert s[w..][i] == s[w + i];
    }
  }

  // ---------------------------------------------------------------------------
  // Filtering and order
  // ---------------------------------------------------------------------------

  /** Text the tool printed itself: `[AI]` command echoes and `[AI Chat]` replies. */
  predicate IsSelfAuthored(message: string) {
    StartsWith(message, "[AI]") || StartsWith(message, "[AI Chat]")
  }

  /** A marker that starts with a non-blank character survives trimming only if it was there before. */
  lemma TrimmedStartsWith(m: string, marker: string)
    requires |m| > 0 && (IsWhitespace(m[0]) ==> |m| == 1)
    requires |marker| > 0 && !IsWhitespace(marker[0])
    ensures StartsWith(Trim(m), marker) ==> StartsWith(m, marker)
  {
    if IsWhitespace(m[0]) {
      assert TrimStart(m) == [];
    } else {
      assert TrimStart(m) == m;
      assert Trim(m) == m[..|Trim(m)|];
      if StartsWith(Trim(m), marker) {
        assert m[..|marker|] == Trim(m)[..|marker|];
      }
    }
  }

  /** The message a single log line contributes: chat that the tool did not write itself. */
  function ChatMessageOf(line: string): (r: Option<ChatMessage>)
    ensures r.Some? ==> ParseChatLine(line).Some?
    ensures r.Some? ==> !IsSelfAuthored(r.value.message)
  {
    match ParseChatLine(line)
    case None => None
    case Some(cap) =>
      if IsSelfAuthored(cap.message) then None
      else
        TrimmedStartsWith(cap.message, "[AI]");
        TrimmedStartsWith(cap.message, "[AI Chat]");
        Some(ChatMessage(Trim(cap.player), Trim(cap.message)))
  }

  /** The chat messages among `lines`, in file order. */
  function ChatMessages(lines: seq<string>): (r: seq<ChatMessage>)
    ensures |r| <= |lines|
    ensures forall k :: 0 <= k < |r| ==> !IsSelfAuthored(r[k].message)
  {
    if |lines| == 0 then []
    else
      var rest := ChatMessages(lines[1..]);
      match ChatMessageOf(lines[0])
      case None => rest
      case Some(m) =>
        assert forall k :: 0 < k <= |rest| ==> ([m] + rest)[k] == rest[k - 1];
        [m] + rest
  }

  /** Every reported message is the message of one of the lines. */
  lemma {:induction false} ChatMessagesFromLines(lines: seq<string>, m: ChatMessage)
    requires m in ChatMessages(lines)
    ensures exists i :: 0 <= i < |lines| && ChatMessageOf(lines[i]) == Some(m)
    decreases |lines|
  {
    if ChatMessageOf(lines[0]) != Some(m) {
      assert m in ChatMessages(lines[1..]);
      ChatMessagesFromLines(lines[1..], m);
      var i :| 0 <= i < |lines[1..]| && ChatMessageOf(lines[1..][i]) == Some(m);
      assert ChatMessageOf(lines[i + 1]) == Some(m);
    }
  }

  /** Messages come out in the order of their lines: extraction distributes over concatenation. */
  lemma {:induction false} ChatMessagesAppend(a: seq<string>, b: seq<string>)
    ensures ChatMessages(a + b) == ChatMessages(a) + ChatMessages(b)
    decreases |a|
  {
    if |a| == 0 {
      assert a + b == b;
    } else {
      assert (a + b)[0] == a[0];
      assert (a + b)[1..] == a[1..] + b;
      ChatMessagesAppend(a[1..], b);
    }
  }

  // ---------------------------------------------------------------------------
  // Reading
  // ---------------------------------------------------------------------------

  /** The log split into lines, as `content.split("\n")`. */
  function Lines(content: string): seq<string> {
    Split(content, '\n')
  }

  /**
   * Where reading starts: from the cursor, unless the log was rotated (its mtime went
   * back, or it is now shorter than the cursor), in which case from the beginning.
   */
  function ReadStart(size: nat, mtime: int, c: Cursor): (start: nat)
    ensures start <= size
    ensures (mtime < c.lastModified || size < c.lastPosition) ==> start == 0
    ensures !(mtime < c.lastModified || size < c.lastPosition) ==> start == c.lastPosition
  {
    if mtime < c.lastModified || size < c.lastPosition then 0 else c.lastPosition
  }

  /** One call of `readNewChatMessages` given the log and the loaded cursor. */
  function ReadNew(log: LogFile, c: Cursor): (r: ReadResult)
    ensures !log.Present? ==> r == ReadResult([], None)
    ensures log.Present? ==> r.saved == Some(Cursor(|log.content|, log.mtime))
  {
    match log
    case Present(content, mtime) =>
      var start := ReadStart(|content|, mtime, c);
      ReadResult(ChatMessages(Lines(content[start..])), Some(Cursor(|content|, mtime)))
    case _ => ReadResult([], None)
  }

  /**
   * `readNewChatMessages`: reads the log from the cursor, collects the chat lines in a
   * loop, and saves the cursor `(size, mtime)`.
   */
  method ReadNewChatMessages(log: LogFile, store: CursorStore) returns (messages: seq<ChatMessage>)
    modifies store
    ensures messages == ReadNew(log, old(store.Load())).messages
    ensures store.stored == (if log.Present? then StoredAfterSave(store.access, old(store.stored), Cursor(|log.content|, log.mtime)) else old(store.stored))
  {
    messages := [];
    if !log.Present? {
      return;
    }
    var size := |log.content|;
    var state := store.Load();
    var startPosition := state.lastPosition;
    if log.mtime < state.lastModified || size < state.lastPosition {
      startPosition := 0;
    }
    var lines := Split(log.content[startPosition..size], '\n');
    for i := 0 to |lines|
      invariant messages == ChatMessages(lines[..i])
      modifies {}
    {
      ChatMessagesStep(lines, i);
      var found := ParseChatLine(lines[i]);
      LineMessages(lines[i]);
      if found.Some? && !IsSelfAuthored(found.value.message) {
        messages := messages + [ChatMessage(Trim(found.value.player), Trim(found.value.message))];
      }
    }
    ReadNewFrom(log, state, startPosition, lines);
    store.Save(Cursor(size, log.mtime));
  }

  /** Extending the examined prefix by one line adds that line's message, if any. */
  lemma ChatMessagesStep(lines: seq<string>, i: nat)
    requires i < |lines|
    ensures ChatMessages(lines[..i + 1]) == ChatMessages(lines[..i]) + ChatMessages([lines[i]])
  {
    assert lines[..i + 1] == lines[..i] + [lines[i]];
    ChatMessagesAppend(lines[..i], [lines[i]]);
  }

  /** What one line contributes: its trimmed captures, unless it is not chat or the tool's own. */
  lemma LineMessages(line: string)
    ensures var found := ParseChatLine(line);
            ChatMessages([line])
            == if found.Some? && !IsSelfAuthored(found.value.message)
               then [ChatMessage(Trim(found.value.player), Trim(found.value.message))] else []
  {
    assert [line][1..] == [];
  }

  lemma ReadNewFrom(log: LogFile, c: Cursor, start: nat, lines: seq<string>)
    requires log.Present? && start == ReadStart(|log.content|, log.mtime, c)
    requires lines == Split(log.content[start..|log.content|], '\n')
    ensures ReadNew(log, c).messages == ChatMessages(lines[..|lines|])
  {
    assert lines[..|lines|] == lines;
    assert log.content[start..|log.content|] == log.content[start..];
  }

  // ---------------------------------------------------------------------------
  // Properties of the reader
  // ---------------------------------------------------------------------------

  /** A second read of an unchanged log yields nothing and keeps the cursor where it is. */
  lemma UnchangedLogYieldsNothing(content: string, mtime: int, c: Cursor)
    ensures var first := ReadNew(Present(content, mtime), c);
            ReadNew(Present(content, mtime), first.saved.value) == ReadResult([], first.saved)
  {
    var c' := Cursor(|content|, mtime);
    assert content[ReadStart(|content|, mtime, c')..] == "";
    assert Lines("") == [""];
    assert ParseChatLine("") == None;
  }

  /**
   * A replacement log at least as long as the old one, with a later mtime, passes for
   * the same log: the rotation test does not fire, its first `|previous|` characters
   * are skipped, and a replacement of exactly the old size is not read at all.
   */
  lemma ReplacementReadFromOldCursor(previous: string, replacement: string, m0: int, m1: int)
    requires |replacement| >= |previous| && m0 <= m1
    ensures ReadNew(Present(replacement, m1), Cursor(|previous|, m0)).messages
            == ChatMessages(Lines(replacement[|previous|..]))
    ensures |replacement| == |previous| ==> ReadNew(Present(replacement, m1), Cursor(|previous|, m0)).messages == []
  {
    if |replacement| == |previous| {
      assert replacement[|previous|..] == "";
      assert Lines("") == [""];
      assert ParseChatLine("") == None;
    }
  }

  /** After an append, only the lines of the appended range are examined. */
  lemma AppendReadsOnlyNewText(before: string, added: string, mtime: int, c: Cursor)
    requires c.lastPosition == |before| && c.lastModified <= mtime
    ensures ReadNew(Present(before + added, mtime), c).messages == ChatMessages(Lines(added))
  {
    assert (before + added)[|before|..] == added;
  }

  /**
   * When the log ended with a complete line, reading it, then reading what was appended,
   * reports exactly what one read of the whole log would: nothing lost, nothing repeated.
   */
  lemma ReadsAcrossAppendLoseNothing(before: string, added: string, m0: int, m1: int)
    requires before == "" || before[|before| - 1] == '\n'
    requires m0 <= m1
    ensures ReadNew(Present(before, m0), DefaultCursor).messages
              + ReadNew(Present(before + added, m1), Cursor(|before|, m0)).messages
            == ReadNew(Present(before + added, m1), DefaultCursor).messages
  {
    FreshCursorReadsWholeLog(before, m0);
    FreshCursorReadsWholeLog(before + added, m1);
    AppendReadsOnlyNewText(before, added, m1, Cursor(|before|, m0));
    CompleteLinesAppend(before, added);
  }

  /** Text that ends with a newline contributes its messages, then the appended text its own. */
  lemma CompleteLinesAppend(before: string, added: string)
    requires before == "" || before[|before| - 1] == '\n'
    ensures ChatMessages(Lines(before)) + ChatMessages(Lines(added)) == ChatMessages(Lines(before + added))
  {
    EmptyLineSkipped();
    if before == "" {
      assert before + added == added;
    } else {
      var body := before[..|before| - 1];
      assert before == body + ['\n'] + "";
      assert before + added == body + ['\n'] + added;
      SplitAppend(body, "", '\n');
      SplitAppend(body, added, '\n');
      ChatMessagesAppend(Lines(body), Lines(""));
      ChatMessagesAppend(Lines(body), Lines(added));
    }
  }

  /** The empty piece after a final newline contributes nothing. */
  lemma EmptyLineSkipped()
    ensures ChatMessages(Lines("")) == []
  {
    assert Lines("") == [""];
    LineWithoutTagSkipped("");
  }

  /** A rotated log (mtime went back, or it shrank below the cursor) is read again from the start. */
  lemma RotationRereadsWholeLog(content: string, mtime: int, c: Cursor)
    requires mtime < c.lastModified || |content| < c.lastPosition
    ensures ReadNew(Present(content, mtime), c).messages == ChatMessages(Lines(content))
  {
    assert content[0..] == content;
  }

  /** Without a saved cursor the whole log is read. */
  lemma FreshCursorReadsWholeLog(content: string, mtime: int)
    ensures ReadNew(Present(content, mtime), DefaultCursor).messages == ChatMessages(Lines(content))
  {
    assert content[0..] == content;
  }

  /**
   * After a read whose save succeeded, reading the same log again reports nothing; after
   * a save that failed once the file was truncated, it reports every chat line again.
   */
  lemma InterruptedSaveRepeatsChat(content: string, mtime: int, previous: Option<Cursor>)
    ensures var c := Cursor(|content|, mtime);
            && ReadNew(Present(content, mtime), LoadCursor(StoredAfterSave(Writable, previous, c))).messages == []
            && ReadNew(Present(content, mtime), LoadCursor(StoredAfterSave(WriteFails, previous, c))).messages
               == ChatMessages(Lines(content))
  {
    var log, c := Present(content, mtime), Cursor(|content|, mtime);
    assert LoadCursor(StoredAfterSave(Writable, previous, c)) == c;
    assert ReadNew(log, c).messages == [] by {
      UnchangedLogYieldsNothing(content, mtime, DefaultCursor);
    }
    assert LoadCursor(StoredAfterSave(WriteFails, previous, c)) == DefaultCursor;
    assert ReadNew(log, DefaultCursor).messages == ChatMessages(Lines(content)) by {
      FreshCursorReadsWholeLog(content, mtime);
    }
  }

  /**
   * A chat line whose text starts with a non-blank character is reported with its name
   * and text trimmed, unless the text is one of the tool's own `[AI]` or `[AI Chat]` lines.
   */
  lemma ChatLineReported(stamp: string, gap: string, player: string, pad: string, message: string)
    requires ChatParts(stamp, gap, player, pad, message) && !IsWhitespace(message[0])
    ensures ChatMessages([ChatLine(stamp, gap, player, pad, message)])
            == if IsSelfAuthored(message) then [] else [ChatMessage(Trim(player), Trim(message))]
  {
    ParseChatLineComplete(stamp, gap, player, pad, message);
    LineMessages(ChatLine(stamp, gap, player, pad, message));
  }

  /** A line that does not contain `[CHAT]` contributes nothing. */
  lemma LineWithoutTagSkipped(line: string)
    requires !Contains(line, "[CHAT]")
    ensures ChatMessages([line]) == []
  {
    LineMessages(line);
    if ParseChatLine(line).Some? {
      var stamp, gap, pad := ParseChatLineSound(line);
      var cap := ParseChatLine(line).value;
      TagOccurs(stamp, gap + cap.player + ":" + pad + cap.message);
      assert false;
    }
  }

  lemma TagOccurs(stamp: string, t: string)
    ensures OccursAt(stamp + "[CHAT]" + t, "[CHAT]", |stamp|)
  {
    assert (stamp + "[CHAT]" + t)[|stamp|..|stamp| + 6] == "[CHAT]";
  }
}
