# claude-summarizer: a verified model of the text derivations

`claude-summarizer.ts` exports a conversation (a list of user and assistant
messages) as a Markdown transcript. It can also write a short Markdown
summary of the conversation. This project models, in Dafny, the pure half
of that script:

- the transcript formatter (`formatMessage`, `formatConversation`);
- the topic extractor (`extractTopics`): lower-case, split on whitespace,
  keep the words of a fixed nine-word vocabulary, once each, in order of
  first occurrence;
- the summary generator (`generateSummary`): title, context, key points,
  topics, summary sentence and metadata;
- the summary renderer (`formatSummary`);
- the timestamp sanitiser `replace(/[:.]/g, '-')` and the two file names
  built with it.

The modules are:

- `Messages`: the message data.
- `JsStrings`: the JavaScript built-ins the script relies on: `slice`,
  `join`, `toLowerCase`, `split(/\s+/)`, the `[:.]` replacement and the
  decimal rendering of a count.
- `Transcript`, `Topics`, `Summary` and `Render`: one each for the four
  parts above.

`extractTopics` mutates a `Set` inside two nested `forEach` loops. It is
modelled as the method `Topics.ExtractTopics`, with two nested loops and an
accumulator sequence, and is proved equal to the function `Topics.TopicsOf`.
The lemmas about topics are stated about that function. Everything else in
the core is built from expressions, so it is modelled by functions and
lemmas.

The clock and the locale are inputs of the model:

- the generation time `new Date().toISOString()` is the parameter `now`;
- the export time rendered by `toLocaleString()` is the parameter
  `exportedOn`;
- the locale rendering of the last message time is the function parameter
  `localeString`.

The script's own two-message sample has exactly one key point
(`Summary.SampleKeyPoints`). The user's opening message is 39 characters
long, so only the assistant's reply passes the "longer than 50 characters"
filter.

## Model

| member | source | states |
|---|---|---|
| `JsStrings.Prefix` | claude-summarizer.ts:55 | `slice(0, n)` is the first `n` characters of `s`, or all of `s` when it is shorter |
| `JsStrings.SliceFromEnd` | claude-summarizer.ts:58 | `slice(-k)` is the last `k` elements, or all of them when there are fewer; `slice(-0)` keeps everything |
| `JsStrings.JoinLength` | claude-summarizer.ts:33 | a join is as long as its parts plus one separator fewer than there are parts |
| `JsStrings.JoinPieceAt` | claude-summarizer.ts:33 | part `i` stands verbatim at its offset, preceded by the separator unless it is first, and the last part ends the join |
| `JsStrings.JoinAppend` | claude-summarizer.ts:33 | joining one more part appends a separator (unless the list was empty) and that part |
| `JsStrings.ToLower` | claude-summarizer.ts:42 | `toLowerCase` keeps the length and maps each character on its own |
| `JsStrings.ToLowerIdempotent` | claude-summarizer.ts:42 | lower-casing twice is lower-casing once |
| `JsStrings.SplitWhitespace` | claude-summarizer.ts:42 | `split(/\s+/)` gives at least one piece, and no piece holds a `\s` character |
| `JsStrings.SplitFrom` | claude-summarizer.ts:42 | `split(/\s+/)` gives at least one piece, and no piece holds a `\s` character |
| `JsStrings.SplitWhitespaceKeepsText` | claude-summarizer.ts:42 | the pieces of `split(/\s+/)` put back together are the input without its whitespace |
| `JsStrings.SplitUnsplit` | claude-summarizer.ts:42 | the cuts fall exactly at the maximal whitespace runs: text laid out as whitespace-free words (the inner ones non-empty) separated by non-empty whitespace runs splits into exactly those words, with an empty first or last piece for leading or trailing whitespace |
| `JsStrings.WordInSplit` | claude-summarizer.ts:42 | a non-empty whitespace-free word with whitespace or the edge of the text on each side is one of the pieces |
| `JsStrings.ReplaceColonsAndDots` | claude-summarizer.ts:99 | the sanitiser keeps the length, turns every `:` and `.` into `-`, and leaves every other character in place |
| `JsStrings.ReplaceLeavesNoSeparators` | claude-summarizer.ts:99 | the sanitised text holds no `:` and no `.` |
| `JsStrings.ReplaceIdempotent` | claude-summarizer.ts:99 | sanitising twice is sanitising once |
| `JsStrings.Decimal` | claude-summarizer.ts:97 | the rendering of the message count is non-empty decimal digits with no leading zero |
| `JsStrings.DecimalRoundTrip` | claude-summarizer.ts:97 | reading the rendered message count back gives the count |
| `Transcript.FormatMessageShape` | claude-summarizer.ts:25-29 | a block opens with `## `, says `User` exactly for the user, has ` (` after the label exactly when the timestamp is present and non-empty, and ends with the verbatim content and a blank line |
| `Transcript.FormatMessage` | claude-summarizer.ts:25-29 | a block ends with the message content, verbatim, followed by a blank line |
| `Transcript.HeadingParses` | claude-summarizer.ts:26-28 | the heading line determines the role and the (non-empty) timestamp |
| `Transcript.FormatParseRoundTrip` | claude-summarizer.ts:25-29 | reading a block back gives its message (an empty timestamp reads as absent) when the timestamp holds no line break |
| `Transcript.Blocks` | claude-summarizer.ts:33 | `messages.map(formatMessage)`: one block per message, in order |
| `Transcript.FormatConversation` | claude-summarizer.ts:31-34 | the transcript opens with the fixed header carrying the export time |
| `Transcript.ConversationHeader` | claude-summarizer.ts:31-34 | the transcript starts with the fixed header, and is the header alone exactly when there are no messages |
| `Transcript.ConversationAppend` | claude-summarizer.ts:31-34 | one more message appends a separator (unless it is the first) and its block |
| `Transcript.BlockAt` | claude-summarizer.ts:31-34 | block `i` is `formatMessage(messages[i])`, stands verbatim at its offset after a separator unless it is first, and the last block ends the transcript |
| `Transcript.ConversationLength` | claude-summarizer.ts:31-34 | a transcript of `n > 0` messages is the header, the blocks and exactly `n - 1` separators |
| `Topics.Collect` | claude-summarizer.ts:38-50 | the topics collected from a word list are vocabulary words, none twice |
| `Topics.TopicsOf` | claude-summarizer.ts:36-51 | the topics of a conversation are vocabulary words, none twice, at most nine |
| `Topics.ExtractTopics` | claude-summarizer.ts:36-51 | the nested loops compute `TopicsOf(messages)` |
| `Topics.CollectMembers` | claude-summarizer.ts:43-47 | a word is collected if and only if it is a vocabulary word that occurs in the word list |
| `Topics.CollectOrder` | claude-summarizer.ts:41-50 | topics are listed in the order of their first occurrence |
| `Topics.CollectBound` | claude-summarizer.ts:39 | there are at most nine topics |
| `Topics.CommonWordsCard` | claude-summarizer.ts:39 | the vocabulary has nine different words |
| `Topics.TopicsMembers` | claude-summarizer.ts:36-51 | a word is a topic of a conversation if and only if it is a vocabulary word among its lower-cased words; topics are distinct and at most nine |
| `Topics.WordsInAllWords` | claude-summarizer.ts:41-43 | every lower-cased word of every message is among the words the loops visit |
| `Topics.VocabularyWordIsTopic` | claude-summarizer.ts:41-47 | a vocabulary word that stands between whitespace, or the edges of the text, in the lower-cased content of any message is a topic |
| `Topics.NonLetterWordIsNoTopic` | claude-summarizer.ts:42-44 | matching is exact: a word holding anything but `a`-`z` (`error.`, `project?`) is never a topic |
| `Topics.TopicsIgnoreCase` | claude-summarizer.ts:42 | conversations whose messages agree up to case have the same topics |
| `Topics.AllWordsAppend` | claude-summarizer.ts:41-48 | the words of two stretches of a conversation are those of the first followed by those of the second |
| `Topics.CollectExtends` | claude-summarizer.ts:43-47 | collecting more words only adds topics at the end |
| `Topics.TopicsGrow` | claude-summarizer.ts:36-51 | the topics of a conversation start with the topics of any of its beginnings |
| `Summary.FirstUserIndex` | claude-summarizer.ts:55 | `find(m => m.role === 'user')`: the first user message, or none when there is no user message |
| `Summary.Title` | claude-summarizer.ts:55 | the title is never empty and never longer than 100 characters |
| `Summary.TitleOfFirstUser` | claude-summarizer.ts:55 | the title is the first 100 characters of the first user message, or the default when that message is empty |
| `Summary.TitleWithoutUser` | claude-summarizer.ts:55 | without a user message the title is `Untitled Conversation` |
| `Summary.PreviewLine` | claude-summarizer.ts:59 | a preview is as long as the role, `: `, the first `n` characters of the content (all of it when shorter) and `...` |
| `Summary.PreviewShape` | claude-summarizer.ts:59 | a preview is the role, `: `, the first `n` characters of the content and `...` |
| `Summary.ContextLines` | claude-summarizer.ts:58-59 | the context has one preview per message among the last `min(3, n)`, in order, each cut to 100 characters |
| `Summary.Context` | claude-summarizer.ts:58-59 | the context is empty exactly when the conversation is |
| `Summary.ContextLineAt` | claude-summarizer.ts:58-59 | the context is the context lines joined by `\n`: line `i` is the preview of its message and stands verbatim at its offset, after a line break unless it is first, and the last line ends the context |
| `Summary.Substantial` | claude-summarizer.ts:63 | the filter keeps only messages longer than 50 characters |
| `Summary.SubstantialMembers` | claude-summarizer.ts:63 | a message is kept if and only if it is in the conversation and longer than 50 characters |
| `Summary.SubstantialAppend` | claude-summarizer.ts:63 | the filter keeps the relative order of the messages |
| `Summary.KeyPoints` | claude-summarizer.ts:62-65 | there are `min(5, #substantial)` key points: previews of the last substantial messages, in order, each cut to 150 characters |
| `Summary.KeyPointsBounded` | claude-summarizer.ts:65 | every key point is at most 9 + 2 + 150 + 3 characters long |
| `Summary.SummaryText` | claude-summarizer.ts:69 | the summary sentence is `This is a conversation about `, then the topics joined by `, `, then `. The most recent context is:` and a blank line, then the context, verbatim, and nothing else |
| `Summary.LastMessageTime` | claude-summarizer.ts:78 | the last message's timestamp when it is present and non-empty, else the clock reading |
| `Summary.GenerateSummary` | claude-summarizer.ts:53-83 | every field of the summary: clock reading, title, key points, topics, context, summary sentence, message count and last message time, with the bounds on title, key points and topics |
| `Summary.EmptyConversation` | claude-summarizer.ts:53-83 | an empty conversation gets the default title, no key points, no topics, no context and the clock reading as last message time |
| `Summary.SampleKeyPoints` | claude-summarizer.ts:62-65 | the script's two-message sample has exactly one key point: the assistant's reply |
| `Render.Bullets` | claude-summarizer.ts:94 | one `- point` line per key point, in order |
| `Render.ConversationId` | claude-summarizer.ts:99 | the conversation identifier has the timestamp's length, no `:` and no `.`, and every other character of the timestamp |
| `Render.FormatSummary` | claude-summarizer.ts:85-105 | the rendered summary opens with the title, the last-updated line, the context section and the Recent Messages heading, and ends with the metadata section and the footer |
| `Render.FormatSummaryOpensWithTitle` | claude-summarizer.ts:85-86 | the rendered summary opens with `# ` and the title |
| `Render.FormatSummaryLastUpdated` | claude-summarizer.ts:86-89 | the line after the title is `*Last Updated: ` with the locale rendering of the last message time, then a blank line |
| `Render.FormatSummaryContext` | claude-summarizer.ts:90-91 | the `## Context` heading follows, and the summary sentence stands verbatim right after it |
| `Render.FormatSummaryMetadata` | claude-summarizer.ts:95-102 | the metadata section stands right before the footer |
| `Render.MetadataFields` | claude-summarizer.ts:96-101 | the metadata section gives the message count in decimal, the topics joined by `, ` and the conversation identifier, each at the end of its line, and closes with the `---` rule |
| `Render.FormatSummaryEndsWithFooter` | claude-summarizer.ts:101-104 | the rendered summary ends with the fixed footer |
| `Render.FormatSummaryBullet` | claude-summarizer.ts:93-95 | key point `i` stands as `- point` at its offset in the Recent Messages list, after a line break unless it is first, and the last one is followed directly by the metadata section and the footer |
| `Render.FormatSummaryNoKeyPoints` | claude-summarizer.ts:93-96 | without key points the list is empty: the metadata section follows the Recent Messages heading directly |
| `Render.FormatSummaryLength` | claude-summarizer.ts:85-105 | with key points, the rendering is exactly the head, the `- point` lines with one line break fewer than there are key points, the metadata section and the footer |
| `Render.FileNamesSafe` | claude-summarizer.ts:127 | the summary and transcript file names hold no `:`, and their only `.` is that of `.md` |
| `Render.SummaryFileName` | claude-summarizer.ts:127 | the summary file name is `claude-context-`, the conversation identifier and `.md` |
| `Render.TranscriptFileName` | claude-summarizer.ts:156-157 | the transcript file name is `conversation-`, the sanitised timestamp and `.md` |

## Left out

- Writing files, creating directories, `console.log` and path joining in `exportConversation` (claude-summarizer.ts:107-131) are file-system I/O and are not modelled.
- `process.env.HOME`, the `--claude` flag from `process.argv`, and the top-level script with its output paths (claude-summarizer.ts:123, 133-160) are process environment and are not modelled. The sample conversation is kept as `Summary.SampleConversation`.
- The clock and the locale are not modelled. `new Date().toISOString()` is the parameter `now`, and `new Date().toLocaleString()` is the parameter `exportedOn`. `new Date(t).toLocaleString()` in `formatSummary` is the function parameter `localeString`; date parsing (including an invalid date) is left to that function.
- Summary.GenerateSummary: the source reads the clock twice, once for `timestamp` (line 72) and once for the fallback `lastMessageTime` (line 78). The model uses one reading, `now`, for both, so it does not capture the two readings differing by a tick.
- JsStrings.ToLower: lower-cases the ASCII letters only, not full Unicode case mapping. For topics this makes no difference: the only non-ASCII characters that lower-case to an ASCII letter are U+212A KELVIN SIGN (to `k`, which no vocabulary word holds) and U+0130 (to `i` plus a combining dot, which no vocabulary word holds).
- Characters outside the Basic Multilingual Plane are not modelled. JavaScript counts them as two UTF-16 code units in `length` and `slice`; here a character counts as one.
- The `\s` class of `split(/\s+/)` is the ECMAScript WhiteSpace and LineTerminator set as of Unicode's current space separators (`JsStrings.IsWhitespace`); later Unicode additions are not tracked.
