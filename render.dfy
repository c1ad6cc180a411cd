/**
 The summary renderer (`formatSummary`) and the file names built from a
 sanitised timestamp. The locale rendering of the last message time
 (`new Date(...).toLocaleString()`) is the function parameter `localeString`.
 */
module Render {
  import opened Messages
  import opened JsStrings
  import opened Summary

  const RecentMessagesHeading: string := "\n\n## Recent Messages\n"
  const Footer: string :=
    "*This is a summary of a Claude conversation. The full conversation is available in the conversations directory.*\n"

  /** The conversation identifier: the generation timestamp with every `:`
      and `.` replaced by `-`. */
  function ConversationId(timestamp: string): (r: string)
    ensures |r| == |timestamp|
    ensures forall i :: 0 <= i < |r| ==>
              r[i] != ':' && r[i] != '.'
              && (timestamp[i] != ':' && timestamp[i] != '.' ==> r[i] == timestamp[i])
  {
    ReplaceColonsAndDots(timestamp)
  }

  /** `keyPoints.map(point => `- ${point}`)`. */
  function Bullets(points: seq<string>): (r: seq<string>)
    ensures |r| == |points|
    ensures forall i :: 0 <= i < |r| ==> r[i] == "- " + points[i]
  {
    seq(|points|, i requires 0 <= i < |points| => "- " + points[i])
  }

  /** The title heading that opens the rendered summary. */
  function TitleLine(s: ConversationSummary): string
  {
    "# " + s.title + "\n"
  }

  /** The line under the title: the locale rendering of the last message
      time, then a blank line. */
  function LastUpdatedLine(s: ConversationSummary, localeString: string -> string): string
  {
    "\n*Last Updated: " + localeString(s.metadata.lastMessageTime) + "*\n\n"
  }

  const ContextHeading: string := "## Context\n"

  /** Everything of the rendered summary before the list of key points:
      the title, the last-updated line, the context section and the heading
      of the list. */
  function SummaryHead(s: ConversationSummary, localeString: string -> string): string
  {
    TitleLine(s) + LastUpdatedLine(s, localeString) + ContextHeading + (s.summary + RecentMessagesHeading)
  }

  const CountLabel: string := "\n\n## Metadata\n- Total Messages: "
  const TopicsLabel: string := "\n- Topics: "
  const IdLabel: string := "\n- Conversation ID: "

  /** The metadata heading and the message count. */
  function CountLine(s: ConversationSummary): string
  {
    CountLabel + Decimal(s.metadata.totalMessages)
  }

  /** The topics, comma-separated. */
  function TopicsLine(s: ConversationSummary): string
  {
    TopicsLabel + Join(s.metadata.topics, ", ")
  }

  /** The sanitised generation timestamp. */
  function IdLine(s: ConversationSummary): string
  {
    IdLabel + ConversationId(s.timestamp)
  }

  const MetadataRule: string := "\n\n---\n\n"

  /** The metadata section after the list of key points. */
  function MetadataSection(s: ConversationSummary): string
  {
    CountLine(s) + TopicsLine(s) + IdLine(s) + MetadataRule
  }

  /** `formatSummary`. */
  function FormatSummary(s: ConversationSummary, localeString: string -> string): (r: string)
    ensures var h, t := SummaryHead(s, localeString), MetadataSection(s) + Footer;
            && |h| + |t| <= |r|
            && r[..|h|] == h
            && r[|r| - |t|..] == t
  {
    SummaryHead(s, localeString) + Join(Bullets(s.keyPoints), LineBreak) + (MetadataSection(s) + Footer)
  }

  /** The rendered summary opens with the title heading. */
  lemma {:induction false} FormatSummaryOpensWithTitle(s: ConversationSummary, localeString: string -> string)
    ensures var r := FormatSummary(s, localeString);
            |TitleLine(s)| <= |r| && r[0..|TitleLine(s)|] == TitleLine(s)
  {
    var r, h := FormatSummary(s, localeString), SummaryHead(s, localeString);
    var t, l := TitleLine(s), LastUpdatedLine(s, localeString);
    FourSlices(h, t, l, ContextHeading, s.summary + RecentMessagesHeading);
    PrefixSlice(r, h, 0, |t|);
  }

  /** The title is followed by the last-updated line, which renders the last
      message time through `localeString`. */
  lemma {:induction false} FormatSummaryLastUpdated(s: ConversationSummary, localeString: string -> string)
    ensures var r, t, l := FormatSummary(s, localeString), TitleLine(s), LastUpdatedLine(s, localeString);
            |t| + |l| <= |r| && r[|t|..|t| + |l|] == l
  {
    var r, h := FormatSummary(s, localeString), SummaryHead(s, localeString);
    var t, l := TitleLine(s), LastUpdatedLine(s, localeString);
    FourSlices(h, t, l, ContextHeading, s.summary + RecentMessagesHeading);
    PrefixSlice(r, h, |t|, |t| + |l|);
  }

  /** The summary sentence stands verbatim under the context heading, after
      the title and the last-updated line. */
  lemma {:induction false} FormatSummaryContext(s: ConversationSummary, localeString: string -> string)
    ensures var r := FormatSummary(s, localeString);
            var o := |TitleLine(s)| + |LastUpdatedLine(s, localeString)| + |ContextHeading|;
            && o - |ContextHeading| >= 0
            && r[o - |ContextHeading|..o] == ContextHeading
            && o + |s.summary| <= |r| && r[o..o + |s.summary|] == s.summary
  {
    var r, h := FormatSummary(s, localeString), SummaryHead(s, localeString);
    var t, l := TitleLine(s), LastUpdatedLine(s, localeString);
    var tail := s.summary + RecentMessagesHeading;
    var k := |t| + |l| + |ContextHeading|;
    FourSlices(h, t, l, ContextHeading, tail);
    PrefixSlice(r, h, k - |ContextHeading|, k);
    assert tail[0..|s.summary|] == s.summary;
    SliceWithin(h, tail, s.summary, k, 0);
    PrefixSlice(r, h, k, k + |s.summary|);
  }

  /** The metadata section stands right before the footer. */
  lemma {:induction false} FormatSummaryMetadata(s: ConversationSummary, localeString: string -> string)
    ensures var r, m := FormatSummary(s, localeString), MetadataSection(s);
            |m| + |Footer| <= |r| && r[|r| - |Footer| - |m|..|r| - |Footer|] == m
  {
    SuffixSplit(FormatSummary(s, localeString), MetadataSection(s), Footer);
  }

  /** The metadata section gives the message count, the comma-separated
      topics and the conversation identifier, each at the end of its line,
      and closes with a horizontal rule. */
  lemma {:induction false} MetadataFields(s: ConversationSummary)
    ensures var t, n, ts, id := MetadataSection(s), Decimal(s.metadata.totalMessages),
                                Join(s.metadata.topics, ", "), ConversationId(s.timestamp);
            var a := |CountLine(s)|;
            var b := a + |TopicsLine(s)|;
            var c := b + |IdLine(s)|;
            && |n| <= a && t[a - |n|..a] == n
            && |ts| <= b - a && t[b - |ts|..b] == ts
            && |id| <= c - b && t[c - |id|..c] == id
            && t[c..|t|] == MetadataRule
  {
    FieldsAt(MetadataSection(s), CountLabel, Decimal(s.metadata.totalMessages),
             TopicsLabel, Join(s.metadata.topics, ", "), IdLabel, ConversationId(s.timestamp), MetadataRule);
  }

  /** Three labelled fields followed by a closing text: each value ends its
      field. */
  lemma FieldsAt<T>(t: seq<T>, l1: seq<T>, v1: seq<T>, l2: seq<T>, v2: seq<T>, l3: seq<T>, v3: seq<T>, close: seq<T>)
    requires t == (l1 + v1) + (l2 + v2) + (l3 + v3) + close
    ensures var a := |l1 + v1|;
            var b := a + |l2 + v2|;
            var c := b + |l3 + v3|;
            && |v1| <= a && t[a - |v1|..a] == v1
            && |v2| <= b - a && t[b - |v2|..b] == v2
            && |v3| <= c - b && t[c - |v3|..c] == v3
            && t[c..|t|] == close
  {
    var f1, f2, f3 := l1 + v1, l2 + v2, l3 + v3;
    FourSlices(t, f1, f2, f3, close);
    EndsWith(l1, v1);
    SliceWithin(t, f1, v1, 0, |f1| - |v1|);
    EndsWith(l2, v2);
    SliceWithin(t, f2, v2, |f1|, |f2| - |v2|);
    EndsWith(l3, v3);
    SliceWithin(t, f3, v3, |f1| + |f2|, |f3| - |v3|);
  }

  /** The rendered summary ends with the fixed footer. */
  lemma {:induction false} FormatSummaryEndsWithFooter(s: ConversationSummary, localeString: string -> string)
    ensures var r := FormatSummary(s, localeString);
            |Footer| <= |r| && r[|r| - |Footer|..] == Footer
  {
    SuffixSplit(FormatSummary(s, localeString), MetadataSection(s), Footer);
  }

  /** The list of key points has one line `- point` per key point, in order:
      key point `i` stands at its offset after the head, after a line break
      unless it is the first, and the last one is followed directly by the
      metadata section and the footer. */
  lemma {:induction false} FormatSummaryBullet(s: ConversationSummary, localeString: string -> string, i: nat)
    requires i < |s.keyPoints|
    ensures var r := FormatSummary(s, localeString);
            var o := |SummaryHead(s, localeString)| + Offset(Bullets(s.keyPoints), LineBreak, i);
            var line := "- " + s.keyPoints[i];
            && o + |line| <= |r|
            && r[o..o + |line|] == line
            && (i > 0 ==> r[o - |LineBreak|..o] == LineBreak)
            && (i == |s.keyPoints| - 1 ==> |r| == o + |line| + |MetadataSection(s) + Footer|)
  {
    BulletAt(SummaryHead(s, localeString), s.keyPoints, MetadataSection(s) + Footer, i);
  }

  /** `FormatSummaryBullet` for any text around the list. */
  lemma {:induction false} BulletAt(head: string, points: seq<string>, tail: string, i: nat)
    requires i < |points|
    ensures var r := head + Join(Bullets(points), LineBreak) + tail;
            var o := |head| + Offset(Bullets(points), LineBreak, i);
            var line := "- " + points[i];
            && o + |line| <= |r|
            && r[o..o + |line|] == line
            && (i > 0 ==> r[o - |LineBreak|..o] == LineBreak)
            && (i == |points| - 1 ==> |r| == o + |line| + |tail|)
  {
    FramedJoinPieceAt(head, Bullets(points), LineBreak, tail, i);
  }

  /** Without key points the Recent Messages list is empty: the metadata
      section follows its heading directly. */
  lemma {:induction false} FormatSummaryNoKeyPoints(s: ConversationSummary, localeString: string -> string)
    requires s.keyPoints == []
    ensures FormatSummary(s, localeString) == SummaryHead(s, localeString) + MetadataSection(s) + Footer
  {
    var h := SummaryHead(s, localeString);
    assert Join(Bullets(s.keyPoints), LineBreak) == "";
    assert h + "" == h;
    ConcatAssoc(h, MetadataSection(s), Footer);
  }

  /** With key points, the rendering is the head, the `- point` lines, one
      line break fewer than there are key points, the metadata section and
      the footer, and nothing else. */
  lemma {:induction false} FormatSummaryLength(s: ConversationSummary, localeString: string -> string)
    requires |s.keyPoints| > 0
    ensures |FormatSummary(s, localeString)|
         == |SummaryHead(s, localeString)| + TotalLength(Bullets(s.keyPoints))
            + (|s.keyPoints| - 1) * |LineBreak| + |MetadataSection(s)| + |Footer|
  {
    JoinLength(Bullets(s.keyPoints), LineBreak);
  }

  /* ---------------------------------------------------------------------
     File names
     --------------------------------------------------------------------- */

  /** `claude-context-${sanitised timestamp}.md`, the summary file name. */
  function SummaryFileName(timestamp: string): (r: string)
    ensures |r| == 15 + |timestamp| + 3
    ensures r[..15] == "claude-context-" && r[15..|r| - 3] == ConversationId(timestamp) && r[|r| - 3..] == ".md"
  {
    "claude-context-" + ConversationId(timestamp) + ".md"
  }

  /** `conversation-${sanitised timestamp}.md`, the transcript file name. */
  function TranscriptFileName(timestamp: string): (r: string)
    ensures |r| == 13 + |timestamp| + 3
    ensures r[..13] == "conversation-" && r[13..|r| - 3] == ConversationId(timestamp) && r[|r| - 3..] == ".md"
  {
    "conversation-" + ConversationId(timestamp) + ".md"
  }

  /** A file name built from a sanitised timestamp has no `:` anywhere and
      only the `.` of its `.md` extension. */
  lemma {:induction false} FileNamesSafe(timestamp: string)
    ensures var n := SummaryFileName(timestamp);
            && |n| == 15 + |timestamp| + 3 && n[|n| - 3..] == ".md"
            && forall i :: 0 <= i < |n| - 3 ==> n[i] != ':' && n[i] != '.'
    ensures var n := TranscriptFileName(timestamp);
            && |n| == 13 + |timestamp| + 3 && n[|n| - 3..] == ".md"
            && forall i :: 0 <= i < |n| - 3 ==> n[i] != ':' && n[i] != '.'
  {
    var id := ConversationId(timestamp);
    PrefixSafe("claude-context-", id);
    PrefixSafe("conversation-", id);
  }

  lemma {:induction false} PrefixSafe(p: string, id: string)
    requires forall i :: 0 <= i < |p| ==> p[i] != ':' && p[i] != '.'
    requires forall i :: 0 <= i < |id| ==> id[i] != ':' && id[i] != '.'
    ensures var n := p + id + ".md";
            && |n| == |p| + |id| + 3 && n[|n| - 3..] == ".md"
            && forall i :: 0 <= i < |n| - 3 ==> n[i] != ':' && n[i] != '.'
  {
    var n := p + id + ".md";
    assert n[|n| - 3..] == ".md";
    forall i | 0 <= i < |n| - 3 ensures n[i] != ':' && n[i] != '.' {
      if i < |p| {
        assert n[i] == p[i];
      } else {
        assert n[i] == id[i - |p|];
      }
    }
  }
}
