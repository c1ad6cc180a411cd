/**
 The summary generator (`generateSummary`): a title from the first user
 message, a context from the last three messages, key points from the last
 five long messages, the topics, and metadata. The clock reading that the
 source takes with `new Date().toISOString()` is the parameter `now`.
 */
module Summary {
  import opened Messages
  import opened JsStrings
  import opened Topics

  const DefaultTitle: string := "Untitled Conversation"
  /** Characters of the first user message kept in the title. */
  const TitleLength: nat := 100
  /** Messages shown in the context, and characters kept of each. */
  const ContextMessages: nat := 3
  const ContextLength: nat := 100
  /** The separator between two context lines, and between two key-point
      lines of the rendered summary. */
  const LineBreak: string := "\n"
  /** A message is substantial when its content is longer than this. */
  const SubstantialLength: nat := 50
  /** Substantial messages kept as key points, and characters kept of each. */
  const KeyPointCount: nat := 5
  const KeyPointLength: nat := 150

  datatype Metadata = Metadata(
    totalMessages: nat,
    lastMessageTime: string,
    topics: seq<string>,
    context: string)

  datatype ConversationSummary = ConversationSummary(
    timestamp: string,
    title: string,
    summary: string,
    keyPoints: seq<string>,
    metadata: Metadata)

  /* ---------------------------------------------------------------------
     Title
     --------------------------------------------------------------------- */

  /** `messages.find(m => m.role === 'user')`, as the index it finds: the
      first user message, or none when there is no user message. */
  function FirstUserIndex(ms: seq<Message>): (r: Option<nat>)
    ensures r.Some? ==> r.value < |ms| && ms[r.value].role == User
                        && forall j :: 0 <= j < r.value ==> ms[j].role != User
    ensures r.None? ==> forall j :: 0 <= j < |ms| ==> ms[j].role != User
  {
    if ms == [] then None
    else if ms[0].role == User then Some(0)
    else
      match FirstUserIndex(ms[1..])
      case None => None
      case Some(k) => Some(k + 1)
  }

  /** `find(...)?.content.slice(0, 100) || 'Untitled Conversation'`: never
      empty and never longer than 100 characters. */
  function Title(ms: seq<Message>): (r: string)
    ensures 0 < |r| <= TitleLength
  {
    match FirstUserIndex(ms)
    case None => DefaultTitle
    case Some(k) =>
      var t := Prefix(ms[k].content, TitleLength);
      if t == "" then DefaultTitle else t
  }

  /** With a user message at `i` and none before it, the title is the first
      100 characters of its content, or the default when it is empty. */
  lemma TitleOfFirstUser(ms: seq<Message>, i: nat)
    requires i < |ms| && ms[i].role == User
    requires forall j :: 0 <= j < i ==> ms[j].role != User
    ensures ms[i].content == "" ==> Title(ms) == DefaultTitle
    ensures ms[i].content != "" ==>
              Title(ms) == ms[i].content[..Min(TitleLength, |ms[i].content|)]
  {
  }

  /** Without a user message the title is the default. */
  lemma TitleWithoutUser(ms: seq<Message>)
    requires forall j :: 0 <= j < |ms| ==> ms[j].role != User
    ensures Title(ms) == DefaultTitle
  {
  }

  /* ---------------------------------------------------------------------
     Previews, context and key points
     --------------------------------------------------------------------- */

  /** `${m.role}: ${m.content.slice(0, n)}...`. */
  function PreviewLine(m: Message, n: nat): (r: string)
    ensures |r| == |RoleName(m.role)| + 2 + Min(n, |m.content|) + 3
  {
    RoleName(m.role) + ": " + Prefix(m.content, n) + "..."
  }

  /** A preview names the role, then the first `n` characters of the
      content (all of it when shorter), then always `...`. */
  lemma {:induction false} PreviewShape(m: Message, n: nat)
    ensures var r, k := PreviewLine(m, n), Min(n, |m.content|);
            && |r| == |RoleName(m.role)| + 2 + k + 3
            && r[..|RoleName(m.role)| + 2] == RoleName(m.role) + ": "
            && r[|RoleName(m.role)| + 2..|r| - 3] == m.content[..k]
            && r[|r| - 3..] == "..."
  {
    var head := RoleName(m.role) + ": ";
    var body := Prefix(m.content, n);
    var r := PreviewLine(m, n);
    assert r == head + body + "...";
    assert r[..|head|] == head;
    assert r[|head|..|r| - 3] == body;
    assert r[|r| - 3..] == "...";
  }

  /** The preview lines of `messages.slice(-3)`: one per message among the
      last three (all of them when fewer), in order. */
  function ContextLines(ms: seq<Message>): (r: seq<string>)
    ensures |r| == Min(ContextMessages, |ms|)
    ensures forall i :: 0 <= i < |r| ==> r[i] == PreviewLine(ms[|ms| - |r| + i], ContextLength)
  {
    var last := SliceFromEnd(ms, ContextMessages);
    seq(|last|, i requires 0 <= i < |last| => PreviewLine(last[i], ContextLength))
  }

  /** The context text: the context lines joined by line breaks. */
  function Context(ms: seq<Message>): (r: string)
    ensures r == "" <==> ms == []
  {
    ContextEmpty(ms);
    Join(ContextLines(ms), LineBreak)
  }

  /** The joined context lines are empty exactly when there are no messages:
      every preview holds at least `: ...`. */
  lemma ContextEmpty(ms: seq<Message>)
    ensures Join(ContextLines(ms), LineBreak) == "" <==> ms == []
  {
    var lines := ContextLines(ms);
    if lines != [] {
      JoinPieceAt(lines, LineBreak, 0);
    }
  }

  /** Context line `i` stands verbatim at its offset, after a line break
      unless it is the first, and the last line ends the context. */
  lemma {:induction false} ContextLineAt(ms: seq<Message>, i: nat)
    requires i < Min(ContextMessages, |ms|)
    ensures var r, lines := Context(ms), ContextLines(ms);
            var o, line := Offset(lines, LineBreak, i), lines[i];
            && line == PreviewLine(ms[|ms| - |lines| + i], ContextLength)
            && o + |line| <= |r| && r[o..o + |line|] == line
            && (i > 0 ==> o >= |LineBreak| && r[o - |LineBreak|..o] == LineBreak)
            && (i == |lines| - 1 ==> |r| == o + |line|)
  {
    JoinPieceAt(ContextLines(ms), LineBreak, i);
  }

  predicate IsSubstantial(m: Message)
  {
    |m.content| > SubstantialLength
  }

  /** `messages.filter(m => m.content.length > 50)`. */
  function Substantial(ms: seq<Message>): (r: seq<Message>)
    ensures |r| <= |ms|
    ensures forall i :: 0 <= i < |r| ==> IsSubstantial(r[i])
  {
    if ms == [] then []
    else (if IsSubstantial(ms[0]) then [ms[0]] else []) + Substantial(ms[1..])
  }

  /** Filtering keeps order: the substantial messages of two stretches of a
      conversation are those of the first followed by those of the second. */
  lemma {:induction false} SubstantialAppend(a: seq<Message>, b: seq<Message>)
    ensures Substantial(a + b) == Substantial(a) + Substantial(b)
  {
    if a != [] {
      assert (a + b)[1..] == a[1..] + b;
      SubstantialAppend(a[1..], b);
    } else {
      assert a + b == b;
    }
  }

  /** Filtering keeps exactly the substantial messages. */
  lemma {:induction false} SubstantialMembers(ms: seq<Message>, m: Message)
    ensures m in Substantial(ms) <==> m in ms && IsSubstantial(m)
  {
    if ms != [] {
      SubstantialMembers(ms[1..], m);
      assert ms == [ms[0]] + ms[1..];
    }
  }

  /** `filter(...).slice(-5).map(m => `${m.role}: ${m.content.slice(0, 150)}...`)`:
      the previews of the last five substantial messages (all of them when
      fewer), in order. */
  function KeyPoints(ms: seq<Message>): (r: seq<string>)
    ensures |r| == Min(KeyPointCount, |Substantial(ms)|)
    ensures forall i :: 0 <= i < |r| ==>
              r[i] == PreviewLine(Substantial(ms)[|Substantial(ms)| - |r| + i], KeyPointLength)
  {
    var last := SliceFromEnd(Substantial(ms), KeyPointCount);
    seq(|last|, i requires 0 <= i < |last| => PreviewLine(last[i], KeyPointLength))
  }

  /** Every key point is at most `assistant: `, 150 characters and `...`. */
  lemma KeyPointsBounded(ms: seq<Message>)
    ensures forall i :: 0 <= i < |KeyPoints(ms)| ==> |KeyPoints(ms)[i]| <= 9 + 2 + KeyPointLength + 3
  {
    var r := KeyPoints(ms);
    forall i | 0 <= i < |r| ensures |r[i]| <= 9 + 2 + KeyPointLength + 3 {
      var s := Substantial(ms);
      PreviewShape(s[|s| - |r| + i], KeyPointLength);
    }
  }

  /* ---------------------------------------------------------------------
     Metadata and the summary
     --------------------------------------------------------------------- */

  /** `messages[messages.length - 1]?.timestamp || now`: the last message's
      timestamp when there is a last message and its timestamp is present
      and not empty, else `now`. */
  function LastMessageTime(ms: seq<Message>, now: string): (r: string)
    ensures ms != [] && Present(ms[|ms| - 1].timestamp) ==> r == ms[|ms| - 1].timestamp.value
    ensures !(ms != [] && Present(ms[|ms| - 1].timestamp)) ==> r == now
  {
    if ms == [] then now
    else
      match ms[|ms| - 1].timestamp
      case None => now
      case Some(t) => if t == "" then now else t
  }

  const SummaryOpening: string := "This is a conversation about "
  const SummaryBridge: string := ". The most recent context is:\n\n"

  /** The summary sentence: the topics, comma-separated, then the context. */
  function SummaryText(topics: seq<string>, context: string): (r: string)
    ensures var a, tj, b := |SummaryOpening|, Join(topics, ", "), |SummaryBridge|;
            && |r| == a + |tj| + b + |context|
            && r[..a] == SummaryOpening
            && r[a..a + |tj|] == tj
            && r[a + |tj|..a + |tj| + b] == SummaryBridge
            && r[|r| - |context|..] == context
  {
    var r := SummaryOpening + Join(topics, ", ") + SummaryBridge + context;
    FourSlices(r, SummaryOpening, Join(topics, ", "), SummaryBridge, context);
    r
  }

  /** `generateSummary`. */
  function GenerateSummary(ms: seq<Message>, now: string): (r: ConversationSummary)
    ensures r.timestamp == now
    ensures r.metadata.totalMessages == |ms|
    ensures r.title == Title(ms) && 0 < |r.title| <= TitleLength
    ensures r.keyPoints == KeyPoints(ms) && |r.keyPoints| <= KeyPointCount
    ensures r.metadata.topics == TopicsOf(ms) && Distinct(r.metadata.topics)
            && |r.metadata.topics| <= |CommonWords|
    ensures forall i :: 0 <= i < |r.metadata.topics| ==> r.metadata.topics[i] in CommonWords
    ensures r.metadata.context == Context(ms)
    ensures r.summary == SummaryText(r.metadata.topics, r.metadata.context)
    ensures r.metadata.lastMessageTime == LastMessageTime(ms, now)
  {
    var topics := TopicsOf(ms);
    CollectBound(AllWords(ms));
    var context := Context(ms);
    ConversationSummary(
      now,
      Title(ms),
      SummaryText(topics, context),
      KeyPoints(ms),
      Metadata(|ms|, LastMessageTime(ms, now), topics, context))
  }

  /** An empty conversation does not fail: default title, no key points, no
      topics, no context, and the clock reading as the last message time. */
  lemma EmptyConversation(now: string)
    ensures Title([]) == DefaultTitle && KeyPoints([]) == [] && TopicsOf([]) == []
    ensures Context([]) == "" && LastMessageTime([], now) == now
    ensures SummaryText(TopicsOf([]), Context([])) == SummaryOpening + SummaryBridge
  {
    assert AllWords([]) == [];
    assert Join([], ", ") == "";
    assert SummaryOpening + "" + SummaryBridge + "" == SummaryOpening + SummaryBridge;
  }


  /** The two-message conversation the script exports. */
  const SampleConversation: seq<Message> := [
    Message(User, "Hello! Can you help me with my project?", Some("2024-03-31 10:00:00")),
    Message(Assistant, "Of course! I'd be happy to help. What kind of project are you working on?",
            Some("2024-03-31 10:00:05"))]

  /** Only the assistant's message is longer than 50 characters, so the
      sample has exactly one key point. */
  lemma SampleKeyPoints()
    ensures |KeyPoints(SampleConversation)| == 1
    ensures KeyPoints(SampleConversation)[0] == PreviewLine(SampleConversation[1], KeyPointLength)
  {
    var ms := SampleConversation;
    assert !IsSubstantial(ms[0]) && IsSubstantial(ms[1]);
    assert Substantial(ms) == [ms[1]] by {
      assert ms[1..][1..] == [];
    }
  }
}
