/**
 The transcript formatter (`formatMessage`, `formatConversation`): each
 message becomes a Markdown block headed `## User` or `## Assistant`, with
 the timestamp in parentheses when there is one, and the blocks follow a
 fixed header, separated by horizontal rules.
 */
module Transcript {
  import opened Messages
  import opened JsStrings

  /** The horizontal rule between two message blocks. */
  const Separator: string := "---\n\n"

  /** The heading label: `User` for the user, `Assistant` for anything else. */
  function Label(r: Role): string
  {
    if r == User then "User" else "Assistant"
  }

  /** The heading line of a block, without its line break. */
  function Heading(m: Message): string
  {
    "## " + Label(m.role) + (if Present(m.timestamp) then " (" + m.timestamp.value + ")" else "")
  }

  /** `formatMessage`: the heading, a blank line, the content, a blank line. */
  function FormatMessage(m: Message): (r: string)
    ensures |m.content| + 2 <= |r| && r[|r| - |m.content| - 2..] == m.content + "\n\n"
  {
    Heading(m) + "\n\n" + m.content + "\n\n"
  }

  /** A block opens with `## `, names the role (`User` exactly for the user),
      puts ` (` before the timestamp exactly when the timestamp is present
      and not empty (else the line ends there), and ends with the content,
      verbatim, followed by a blank line. */
  lemma {:induction false} FormatMessageShape(m: Message)
    ensures var r := FormatMessage(m);
            && |r| >= |Label(m.role)| + |m.content| + 7
            && r[..3] == "## "
            && ((m.role == User) <==> r[3..7] == "User")
            && r[3 + |Label(m.role)|] == (if Present(m.timestamp) then ' ' else '\n')
            && (Present(m.timestamp) ==> r[4 + |Label(m.role)|] == '(')
            && r[|r| - |m.content| - 2..|r| - 2] == m.content
            && r[|r| - 2..] == "\n\n"
  {
    var h := Heading(m);
    var r := FormatMessage(m);
    assert r[..|h|] == h;
    assert r[3..7] == h[3..7] == Label(m.role)[..4];
    assert m.role != User ==> r[3] == 'A' != "User"[0];
    assert r[|h| + 2..|h| + 2 + |m.content|] == m.content;
  }

  /* ---------------------------------------------------------------------
     Reading a block back
     --------------------------------------------------------------------- */

  /** The first position at or after `i` that holds `c`, or `|s|`. */
  function IndexOf(s: string, c: char, i: nat): (j: nat)
    requires i <= |s|
    ensures i <= j <= |s|
    ensures forall k :: i <= k < j ==> s[k] != c
    ensures j < |s| ==> s[j] == c
    decreases |s| - i
  {
    if i == |s| || s[i] == c then i else IndexOf(s, c, i + 1)
  }

  /** The tail of a heading after its label: nothing, or ` (t)` with `t`
      not empty. */
  function ParseStamp(t: string): Option<Option<string>>
  {
    if t == "" then Some(None)
    else if |t| >= 4 && t[..2] == " (" && t[|t| - 1] == ')' then Some(Some(t[2..|t| - 1]))
    else None
  }

  function ParseHeading(h: string): Option<(Role, Option<string>)>
  {
    if |h| >= 7 && h[..7] == "## User" then
      match ParseStamp(h[7..])
      case None => None
      case Some(t) => Some((User, t))
    else if |h| >= 12 && h[..12] == "## Assistant" then
      match ParseStamp(h[12..])
      case None => None
      case Some(t) => Some((Assistant, t))
    else None
  }

  /** Reads a block as `FormatMessage` writes it: the heading up to the
      first line break, a blank line, the content, a blank line. */
  function ParseMessage(b: string): Option<Message>
  {
    var nl := IndexOf(b, '\n', 0);
    if nl + 4 <= |b| && b[nl..nl + 2] == "\n\n" && b[|b| - 2..] == "\n\n" then
      match ParseHeading(b[..nl])
      case None => None
      case Some((role, stamp)) => Some(Message(role, b[nl + 2..|b| - 2], stamp))
    else None
  }

  /** The message as a block shows it: an empty timestamp reads as absent. */
  function Canonical(m: Message): Message
  {
    if Present(m.timestamp) then m else m.(timestamp := None)
  }

  lemma {:induction false} HeadingParses(m: Message)
    ensures ParseHeading(Heading(m)) == Some((m.role, Canonical(m).timestamp))
  {
    var h := Heading(m);
    var n := 3 + |Label(m.role)|;
    assert h[..n] == "## " + Label(m.role);
    var tail := if Present(m.timestamp) then " (" + m.timestamp.value + ")" else "";
    assert h[n..] == tail;
    if Present(m.timestamp) {
      assert tail[2..|tail| - 1] == m.timestamp.value;
    }
    if m.role == Assistant {
      assert h[..7] != "## User" by { assert h[3] != "## User"[3]; }
    }
  }

  /** Reading a block back gives the message it was written from, when its
      timestamp holds no line break: role, timestamp and content are all
      recoverable from the formatted text. */
  lemma {:induction false} FormatParseRoundTrip(m: Message)
    requires m.timestamp.Some? ==> forall k :: 0 <= k < |m.timestamp.value| ==> m.timestamp.value[k] != '\n'
    ensures ParseMessage(FormatMessage(m)) == Some(Canonical(m))
  {
    var h, b := Heading(m), FormatMessage(m);
    var d: string := "\n\n";
    HeadingOneLine(m);
    FourSlices(b, h, d, m.content, d);
    forall k | 0 <= k < |h| ensures b[k] != '\n' {
      assert b[k] == b[0..|h|][k];
    }
    assert b[|h|] == b[|h|..|h| + |d|][0];
    var nl := IndexOf(b, '\n', 0);
    assert nl == |h|;
    assert b[..nl] == b[0..|h|];
    HeadingParses(m);
  }

  /** The heading holds no line break when the timestamp holds none. */
  lemma HeadingOneLine(m: Message)
    requires m.timestamp.Some? ==> forall k :: 0 <= k < |m.timestamp.value| ==> m.timestamp.value[k] != '\n'
    ensures forall k :: 0 <= k < |Heading(m)| ==> Heading(m)[k] != '\n'
  {
    var h, lead := Heading(m), "## " + Label(m.role);
    forall k | 0 <= k < |h| ensures h[k] != '\n' {
      if k >= |lead| {
        var stamp := m.timestamp.value;
        assert h == lead + (" (" + stamp + ")");
        assert h[k] == (" (" + stamp + ")")[k - |lead|];
      } else {
        assert h[k] == lead[k];
      }
    }
  }

  /* ---------------------------------------------------------------------
     The whole transcript
     --------------------------------------------------------------------- */

  /** The fixed header; `exportedOn` is the locale rendering of the export
      time, passed in instead of read from the clock. */
  function Header(exportedOn: string): string
  {
    "# Claude Conversation Export\n\n*Exported on " + exportedOn + "*\n\n"
  }

  /** `messages.map(formatMessage)`. */
  function Blocks(ms: seq<Message>): (r: seq<string>)
    ensures |r| == |ms|
    ensures forall i :: 0 <= i < |ms| ==> r[i] == FormatMessage(ms[i])
  {
    seq(|ms|, i requires 0 <= i < |ms| => FormatMessage(ms[i]))
  }

  /** `formatConversation`: the header, then the blocks joined by rules. */
  function FormatConversation(ms: seq<Message>, exportedOn: string): (r: string)
    ensures |Header(exportedOn)| <= |r| && r[..|Header(exportedOn)|] == Header(exportedOn)
  {
    Header(exportedOn) + Join(Blocks(ms), Separator)
  }

  /** The transcript starts with the header, and is the header alone exactly
      when there are no messages. */
  lemma {:induction false} ConversationHeader(ms: seq<Message>, exportedOn: string)
    ensures var r := FormatConversation(ms, exportedOn);
            && |Header(exportedOn)| <= |r|
            && r[..|Header(exportedOn)|] == Header(exportedOn)
            && (ms == [] <==> r == Header(exportedOn))
  {
    var h, r := Header(exportedOn), FormatConversation(ms, exportedOn);
    assert r[..|h|] == h;
    if ms != [] {
      JoinLength(Blocks(ms), Separator);
      assert |Blocks(ms)[0]| > 0;
      assert TotalLength(Blocks(ms)) >= |Blocks(ms)[0]|;
    }
  }

  /** One more message adds one rule (unless it is the first) and its block,
      at the end: the transcript is the blocks in input order. */
  lemma {:induction false} ConversationAppend(ms: seq<Message>, m: Message, exportedOn: string)
    ensures FormatConversation(ms + [m], exportedOn)
         == FormatConversation(ms, exportedOn) + (if ms == [] then "" else Separator) + FormatMessage(m)
  {
    var b := FormatMessage(m);
    BlocksAppend(ms, m);
    JoinAppend(Blocks(ms), b, Separator);
    var h, j := Header(exportedOn), Join(Blocks(ms), Separator);
    var sep: string := if ms == [] then "" else Separator;
    if ms != [] {
      ConcatAssoc(h, j + sep, b);
      ConcatAssoc(h, j, sep);
    } else {
      assert j == "";
      ConcatAssoc(h, j, sep);
      ConcatAssoc(h, sep, b);
    }
  }

  lemma {:induction false} BlocksAppend(ms: seq<Message>, m: Message)
    ensures Blocks(ms + [m]) == Blocks(ms) + [FormatMessage(m)]
  {
    var l, r := Blocks(ms + [m]), Blocks(ms) + [FormatMessage(m)];
    assert |l| == |r|;
    forall i | 0 <= i < |l| ensures l[i] == r[i] {
      if i < |ms| {
        assert (ms + [m])[i] == ms[i];
      }
    }
  }

  /** Block `i` stands verbatim at its offset after the header, preceded by
      a rule unless it is the first; the last block ends the transcript. */
  lemma {:induction false} BlockAt(ms: seq<Message>, exportedOn: string, i: nat)
    requires i < |ms|
    ensures var r := FormatConversation(ms, exportedOn);
            var o := |Header(exportedOn)| + Offset(Blocks(ms), Separator, i);
            var b := Blocks(ms)[i];
            && b == FormatMessage(ms[i])
            && o + |b| <= |r|
            && r[o..o + |b|] == b
            && (i > 0 ==> r[o - |Separator|..o] == Separator)
            && (i == |ms| - 1 ==> |r| == o + |b|)
  {
    PrefixedJoinPieceAt(Header(exportedOn), Blocks(ms), Separator, i);
  }

  /** A transcript of `n > 0` messages holds exactly `n - 1` rules: its
      length is the header, every block and `n - 1` separators. */
  lemma {:induction false} ConversationLength(ms: seq<Message>, exportedOn: string)
    requires |ms| > 0
    ensures |FormatConversation(ms, exportedOn)|
         == |Header(exportedOn)| + TotalLength(Blocks(ms)) + (|ms| - 1) * |Separator|
  {
    JoinLength(Blocks(ms), Separator);
  }
}
