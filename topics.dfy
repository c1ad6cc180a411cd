/**
 The topic extractor (`extractTopics`): every message is lower-cased and
 split on whitespace, and each word that is exactly one of nine common
 words is added to an insertion-ordered set of topics.
 */
module Topics {
  import opened Messages
  import opened JsStrings

  /** `commonWords`: the closed vocabulary of topics. */
  const CommonWords: set<string> :=
    {"project", "code", "file", "script", "function", "error", "bug", "feature", "test"}

  predicate Distinct(s: seq<string>)
  {
    forall i, j :: 0 <= i < j < |s| ==> s[i] != s[j]
  }

  /** The words of one message, as `content.toLowerCase().split(/\s+/)`. */
  function Words(m: Message): seq<string>
  {
    SplitWhitespace(ToLower(m.content))
  }

  /** The words of all messages, message after message. */
  function AllWords(ms: seq<Message>): seq<string>
  {
    if ms == [] then [] else AllWords(ms[..|ms| - 1]) + Words(ms[|ms| - 1])
  }

  /** The set that `topics.add` builds from the words `ws`, in insertion
      order: each common word once, where it is first seen. Only common
      words, and none twice. */
  function Collect(ws: seq<string>): (r: seq<string>)
    ensures forall i :: 0 <= i < |r| ==> r[i] in CommonWords
    ensures Distinct(r)
  {
    if ws == [] then []
    else
      var prev := Collect(ws[..|ws| - 1]);
      var w := ws[|ws| - 1];
      if w in CommonWords && w !in prev then prev + [w] else prev
  }

  /** `Array.from(topics)` at the end of `extractTopics`. */
  function TopicsOf(ms: seq<Message>): (r: seq<string>)
    ensures forall i :: 0 <= i < |r| ==> r[i] in CommonWords
    ensures Distinct(r)
    ensures |r| <= 9
  {
    CollectBound(AllWords(ms));
    Collect(AllWords(ms))
  }

  /** `extractTopics`: the nested loops over messages and their words. */
  method ExtractTopics(messages: seq<Message>) returns (topics: seq<string>)
    ensures topics == TopicsOf(messages)
  {
    topics := [];
    ghost var seen: seq<string> := [];
    for i := 0 to |messages|
      invariant seen == AllWords(messages[..i])
      invariant topics == Collect(seen)
    {
      var words := SplitWhitespace(ToLower(messages[i].content));
      assert seen + words[..0] == seen;
      for j := 0 to |words|
        invariant topics == Collect(seen + words[..j])
      {
        var word := words[j];
        if word in CommonWords && word !in topics {
          topics := topics + [word];
        }
        CollectSnoc(seen, words, j);
      }
      assert words[..|words|] == words;
      AllWordsPrefix(messages, i);
      seen := seen + words;
    }
    assert messages[..|messages|] == messages;
  }

  /** One more word: `topics.add(word)` for a common word not yet present. */
  lemma CollectSnoc(seen: seq<string>, words: seq<string>, j: nat)
    requires j < |words|
    ensures var prev, w := Collect(seen + words[..j]), words[j];
            Collect(seen + words[..j + 1]) == if w in CommonWords && w !in prev then prev + [w] else prev
  {
    assert seen + words[..j + 1] == (seen + words[..j]) + [words[j]];
  }

  /** One more message: its words follow those of the messages before it. */
  lemma AllWordsPrefix(ms: seq<Message>, i: nat)
    requires i < |ms|
    ensures AllWords(ms[..i + 1]) == AllWords(ms[..i]) + Words(ms[i])
  {
    assert ms[..i + 1][..i] == ms[..i];
  }

  /* ---------------------------------------------------------------------
     What the topics are
     --------------------------------------------------------------------- */

  /** A word is a topic exactly when it is a common word and occurs among
      the words. */
  lemma {:induction false} CollectMembers(ws: seq<string>, w: string)
    ensures w in Collect(ws) <==> w in CommonWords && w in ws
  {
    if ws != [] {
      var init := ws[..|ws| - 1];
      CollectMembers(init, w);
      assert ws == init + [ws[|ws| - 1]];
    }
  }

  /** The position where `w` first occurs in `ws`. */
  function FirstIndex(ws: seq<string>, w: string): (k: nat)
    requires w in ws
    ensures k < |ws| && ws[k] == w
    ensures forall j :: 0 <= j < k ==> ws[j] != w
  {
    if ws[0] == w then 0 else 1 + FirstIndex(ws[1..], w)
  }

  /** The words of `r` all occur in `ws`, in the order of their first
      occurrence there. */
  predicate InFirstOccurrenceOrder(r: seq<string>, ws: seq<string>)
  {
    forall i, j :: 0 <= i < j < |r| ==>
      r[i] in ws && r[j] in ws && FirstIndex(ws, r[i]) < FirstIndex(ws, r[j])
  }

  /** Topics are listed in the order of their first occurrence. */
  lemma {:induction false} CollectOrder(ws: seq<string>)
    ensures InFirstOccurrenceOrder(Collect(ws), ws)
  {
    if ws != [] {
      var init, w := ws[..|ws| - 1], ws[|ws| - 1];
      var prev := Collect(init);
      CollectOrder(init);
      assert ws == init + [w];
      forall x | x in prev
        ensures x in init && x in ws && FirstIndex(ws, x) == FirstIndex(init, x)
      {
        CollectMembers(init, x);
        FirstIndexExtend(init, w, x);
      }
      if w in CommonWords && w !in prev {
        CollectMembers(init, w);
        FirstIndexLast(init, w);
        CollectOrderAdd(prev, ws, init, w);
      } else {
        assert Collect(ws) == prev;
      }
    }
  }

  /** Adding a word seen for the first time after all of `prev` keeps the
      order. */
  lemma {:induction false} CollectOrderAdd(prev: seq<string>, ws: seq<string>, init: seq<string>, w: string)
    requires ws == init + [w] && w in ws && FirstIndex(ws, w) == |init|
    requires InFirstOccurrenceOrder(prev, init)
    requires forall x :: x in prev ==> x in init && x in ws && FirstIndex(ws, x) == FirstIndex(init, x)
    ensures InFirstOccurrenceOrder(prev + [w], ws)
  {
    var r := prev + [w];
    forall i, j | 0 <= i < j < |r|
      ensures r[i] in ws && r[j] in ws && FirstIndex(ws, r[i]) < FirstIndex(ws, r[j])
    {
      assert r[i] == prev[i];
      if j < |prev| {
        assert r[j] == prev[j];
      }
    }
  }

  /** Appending a word does not move the first occurrence of an earlier one. */
  lemma {:induction false} FirstIndexExtend(init: seq<string>, w: string, x: string)
    requires x in init
    ensures x in init + [w] && FirstIndex(init + [w], x) == FirstIndex(init, x)
  {
    var ws := init + [w];
    assert ws[0] == init[0];
    if init[0] != x {
      assert ws[1..] == init[1..] + [w];
      FirstIndexExtend(init[1..], w, x);
    }
  }

  /** A word that is new occurs first at the end. */
  lemma {:induction false} FirstIndexLast(init: seq<string>, w: string)
    requires w !in init
    ensures w in init + [w] && FirstIndex(init + [w], w) == |init|
  {
    var ws := init + [w];
    assert ws[|init|] == w;
    if init != [] {
      assert ws[0] == init[0];
      assert ws[1..] == init[1..] + [w];
      FirstIndexLast(init[1..], w);
    }
  }

  /** Topics are distinct common words, so there are at most nine. */
  lemma CollectBound(ws: seq<string>)
    ensures |Collect(ws)| <= |CommonWords| == 9
  {
    var r := Collect(ws);
    DistinctCard(r);
    var used := set x | x in r;
    assert used <= CommonWords;
    SubsetCard(used, CommonWords);
    CommonWordsCard();
  }

  lemma SubsetCard(a: set<string>, b: set<string>)
    requires a <= b
    ensures |a| <= |b|
  {
    assert b == a + (b - a);
  }

  /** The nine common words are pairwise different. */
  lemma CommonWordsCard()
    ensures |CommonWords| == 9
  {
    var fs := {"file", "function", "feature"};
    assert "file"[1] != "function"[1] && "file"[1] != "feature"[1] && "function"[1] != "feature"[1];
    assert |fs| == 3;
    var others := {"project", "code", "script", "error", "bug", "test"};
    assert "project"[0] == 'p' && "code"[0] == 'c' && "script"[0] == 's';
    assert "error"[0] == 'e' && "bug"[0] == 'b' && "test"[0] == 't';
    assert |others| == 6;
    assert fs * others == {};
    assert CommonWords == fs + others;
  }

  lemma {:induction false} DistinctCard(s: seq<string>)
    requires Distinct(s)
    ensures |set x | x in s| == |s|
  {
    if s != [] {
      var init := s[..|s| - 1];
      var last := s[|s| - 1];
      assert Distinct(init);
      DistinctCard(init);
      assert (set x | x in s) == (set x | x in init) + {last};
      assert last !in init;
    }
  }

  /* ---------------------------------------------------------------------
     Properties of extractTopics
     --------------------------------------------------------------------- */

  /** Every topic of a conversation is a common word that is one of its
      lower-cased words, every such word is a topic, and none comes twice. */
  lemma TopicsMembers(ms: seq<Message>, w: string)
    ensures w in TopicsOf(ms) <==> w in CommonWords && w in AllWords(ms)
    ensures Distinct(TopicsOf(ms)) && |TopicsOf(ms)| <= 9
  {
    CollectMembers(AllWords(ms), w);
    CollectBound(AllWords(ms));
  }

  /** The words of two stretches of a conversation are those of the first
      followed by those of the second. */
  lemma {:induction false} AllWordsAppend(ms: seq<Message>, more: seq<Message>)
    ensures AllWords(ms + more) == AllWords(ms) + AllWords(more)
    decreases |more|
  {
    if more == [] {
      assert ms + more == ms;
    } else {
      var init, last := more[..|more| - 1], more[|more| - 1];
      AllWordsAppend(ms, init);
      assert more == init + [last];
      AllWordsAppendStep(ms, init, last);
    }
  }

  lemma {:induction false} AllWordsAppendStep(ms: seq<Message>, init: seq<Message>, last: Message)
    requires AllWords(ms + init) == AllWords(ms) + AllWords(init)
    ensures AllWords(ms + (init + [last])) == AllWords(ms) + AllWords(init + [last])
  {
    var a, b, c := AllWords(ms), AllWords(init), Words(last);
    assert ms + (init + [last]) == (ms + init) + [last];
    AllWordsSnoc(ms + init, last);
    AllWordsSnoc(init, last);
    ConcatAssoc(a, b, c);
  }

  lemma AllWordsSnoc(ms: seq<Message>, m: Message)
    ensures AllWords(ms + [m]) == AllWords(ms) + Words(m)
  {
    assert (ms + [m])[..|ms|] == ms;
  }

  /** Collecting more words only adds topics at the end. */
  lemma {:induction false} CollectExtends(ws: seq<string>, vs: seq<string>)
    ensures var a, b := Collect(ws), Collect(ws + vs);
            |a| <= |b| && b[..|a|] == a
    decreases |vs|
  {
    if vs == [] {
      assert ws + vs == ws;
    } else {
      var init := vs[..|vs| - 1];
      CollectExtends(ws, init);
      assert (ws + vs)[..|ws + vs| - 1] == ws + init;
    }
  }

  /** Topics found so far stay, in place, when the conversation goes on:
      those of a longer conversation start with those of its beginning. */
  lemma TopicsGrow(ms: seq<Message>, more: seq<Message>)
    ensures var a, b := TopicsOf(ms), TopicsOf(ms + more);
            |a| <= |b| && b[..|a|] == a
  {
    AllWordsAppend(ms, more);
    CollectExtends(AllWords(ms), AllWords(more));
  }

  predicate LowerLetters(w: string)
  {
    forall k :: 0 <= k < |w| ==> 'a' <= w[k] <= 'z'
  }

  lemma CommonWordsAreLowerLetters()
    ensures forall w :: w in CommonWords ==> LowerLetters(w)
  {
  }

  /** Matching is exact: a word holding anything but a lower-case letter
      (`error.`, `project?`, `Bug`) is never a topic. */
  lemma {:induction false} NonLetterWordIsNoTopic(ms: seq<Message>, w: string, k: nat)
    requires k < |w| && !('a' <= w[k] <= 'z')
    ensures w !in TopicsOf(ms)
  {
    CollectMembers(AllWords(ms), w);
    CommonWordsAreLowerLetters();
  }

  /** Every word of a message of the conversation is among its words. */
  lemma {:induction false} WordsInAllWords(ms: seq<Message>, k: nat, w: string)
    requires k < |ms| && w in Words(ms[k])
    ensures w in AllWords(ms)
  {
    var init := ms[..|ms| - 1];
    if k < |ms| - 1 {
      assert init[k] == ms[k];
      WordsInAllWords(init, k, w);
    }
  }

  /** A vocabulary word standing in a message's lower-cased content with
      whitespace, or the edge of the content, on both sides is a topic. */
  lemma VocabularyWordIsTopic(ms: seq<Message>, m: Message, a: string, w: string, b: string)
    requires m in ms && ToLower(m.content) == a + w + b && w in CommonWords
    requires a == "" || IsWhitespace(a[|a| - 1])
    requires b == "" || IsWhitespace(b[0])
    ensures w in TopicsOf(ms)
  {
    CommonWordsAreLowerLetters();
    assert w != "" && NoWhitespace(w);
    WordInSplit(a, w, b);
    var k :| 0 <= k < |ms| && ms[k] == m;
    WordsInAllWords(ms, k, w);
    CollectMembers(AllWords(ms), w);
  }

  /** Only lower-cased content decides the topics: messages whose contents
      agree up to case have the same topics. */
  lemma {:induction false} TopicsIgnoreCase(ms: seq<Message>, ns: seq<Message>)
    requires |ms| == |ns|
    requires forall i :: 0 <= i < |ms| ==> ToLower(ms[i].content) == ToLower(ns[i].content)
    ensures TopicsOf(ms) == TopicsOf(ns)
  {
    AllWordsIgnoreCase(ms, ns);
  }

  lemma {:induction false} AllWordsIgnoreCase(ms: seq<Message>, ns: seq<Message>)
    requires |ms| == |ns|
    requires forall i :: 0 <= i < |ms| ==> ToLower(ms[i].content) == ToLower(ns[i].content)
    ensures AllWords(ms) == AllWords(ns)
  {
    if ms != [] {
      AllWordsIgnoreCase(ms[..|ms| - 1], ns[..|ns| - 1]);
      assert Words(ms[|ms| - 1]) == Words(ns[|ns| - 1]);
    }
  }
}
