/**
 The JavaScript string and array built-ins that the summarizer relies on,
 stated over `string` (= `seq<char>`). Lengths and positions count
 characters, which agrees with JavaScript's UTF-16 code units for text in
 the Basic Multilingual Plane. The built-ins modelled are `slice`, `join`,
 `toLowerCase`, `split(/\s+/)`, `replace(/[:.]/g, '-')` and the decimal
 rendering of a non-negative number in a template literal.
 */
module JsStrings {

  function Min(a: int, b: int): int { if a <= b then a else b }

  /* ---------------------------------------------------------------------
     slice
     --------------------------------------------------------------------- */

  /** `s.slice(0, n)`: the first `n` characters, or all of `s` when shorter. */
  function Prefix(s: string, n: nat): (r: string)
    ensures |r| == Min(n, |s|)
    ensures r == s[..|r|]
  {
    if |s| <= n then s else s[..n]
  }

  /** `a.slice(-k)` on an array: the last `k` elements, or all of them when
      there are fewer; `-0` is `0`, so `k == 0` keeps everything. */
  function SliceFromEnd<T>(a: seq<T>, k: nat): (r: seq<T>)
    ensures k > 0 ==> |r| == Min(k, |a|)
    ensures k == 0 ==> r == a
    ensures r == a[|a| - |r|..]
  {
    if k == 0 || |a| <= k then a else a[|a| - k..]
  }

  /** A slice that lies in the left operand of a concatenation. */
  lemma SliceOfLeft<T>(a: seq<T>, b: seq<T>, lo: nat, hi: nat)
    requires lo <= hi <= |a|
    ensures (a + b)[lo..hi] == a[lo..hi]
  {
    var l, r := (a + b)[lo..hi], a[lo..hi];
    assert |l| == |r|;
    forall k | 0 <= k < |l| ensures l[k] == r[k] {
      assert l[k] == (a + b)[lo + k];
    }
  }

  /** A slice that lies in the right operand of a concatenation. */
  lemma SliceOfRight<T>(a: seq<T>, b: seq<T>, lo: nat, hi: nat)
    requires |a| <= lo <= hi <= |a| + |b|
    ensures (a + b)[lo..hi] == b[lo - |a|..hi - |a|]
  {
    var l, r := (a + b)[lo..hi], b[lo - |a|..hi - |a|];
    assert |l| == |r|;
    forall k | 0 <= k < |l| ensures l[k] == r[k] {
      assert l[k] == (a + b)[lo + k];
    }
  }

  /** `y` stands in `x` at `p` and `z` stands in `y` at `q`, so `z` stands
      in `x` at `p + q`. */
  lemma SliceWithin<T>(x: seq<T>, y: seq<T>, z: seq<T>, p: nat, q: nat)
    requires p + |y| <= |x| && x[p..p + |y|] == y
    requires q + |z| <= |y| && y[q..q + |z|] == z
    ensures x[p + q..p + q + |z|] == z
  {
    forall k | 0 <= k < |z| ensures x[p + q + k] == z[k] {
      assert z[k] == y[q + k] == x[p..p + |y|][q + k];
    }
  }

  /** The four consecutive slices of a concatenation. */
  lemma FourSlices<T>(x: seq<T>, a: seq<T>, b: seq<T>, c: seq<T>, d: seq<T>)
    requires x == a + b + c + d
    ensures var i, j, k := |a|, |a| + |b|, |a| + |b| + |c|;
            && x[0..i] == a && x[i..j] == b && x[j..k] == c && x[k..|x|] == d
  {
  }

  /** A slice within a known prefix of `r` is the same slice of that prefix. */
  lemma PrefixSlice<T>(r: seq<T>, h: seq<T>, p: nat, q: nat)
    requires |h| <= |r| && r[..|h|] == h && p <= q <= |h|
    ensures r[p..q] == h[p..q]
  {
    forall k | p <= k < q ensures r[k] == h[k] {
      assert r[k] == r[..|h|][k];
    }
  }

  /** When `r` ends with `a + b`, `a` stands right before the final `b`. */
  lemma SuffixSplit<T>(r: seq<T>, a: seq<T>, b: seq<T>)
    requires |a| + |b| <= |r| && r[|r| - |a + b|..] == a + b
    ensures r[|r| - |b| - |a|..|r| - |b|] == a && r[|r| - |b|..] == b
  {
    var o := |r| - |a| - |b|;
    forall k | 0 <= k < |a| + |b| ensures r[o + k] == (a + b)[k] {
      assert r[o + k] == r[o..][k];
    }
  }

  /** The right operand ends a concatenation. */
  lemma EndsWith<T>(a: seq<T>, b: seq<T>)
    ensures (a + b)[|a + b| - |b|..|a + b|] == b
  {
  }

  /** Concatenation is associative. */
  lemma ConcatAssoc<T>(a: seq<T>, b: seq<T>, c: seq<T>)
    ensures (a + b) + c == a + (b + c)
  {
  }

  /* ---------------------------------------------------------------------
     join
     --------------------------------------------------------------------- */

  /** `parts.join(sep)`. */
  function Join(parts: seq<string>, sep: string): string
  {
    if |parts| == 0 then ""
    else if |parts| == 1 then parts[0]
    else parts[0] + sep + Join(parts[1..], sep)
  }

  /** Total length of all parts. */
  function TotalLength(parts: seq<string>): nat
  {
    if |parts| == 0 then 0 else |parts[0]| + TotalLength(parts[1..])
  }

  /** Where part `i` starts in `Join(parts, sep)`: every earlier part and
      the separator after it come first. */
  function Offset(parts: seq<string>, sep: string, i: nat): nat
    requires i <= |parts|
  {
    if i == 0 then 0 else |parts[0]| + |sep| + Offset(parts[1..], sep, i - 1)
  }

  /** A join holds exactly `|parts| - 1` separators: its length is the
      parts' total length plus that many separator lengths. */
  lemma {:induction false} JoinLength(parts: seq<string>, sep: string)
    requires |parts| > 0
    ensures |Join(parts, sep)| == TotalLength(parts) + (|parts| - 1) * |sep|
  {
    if |parts| > 1 {
      JoinLength(parts[1..], sep);
    } else {
      assert TotalLength(parts[1..]) == 0;
    }
  }

  /** Part `i` appears verbatim at `Offset(parts, sep, i)`, preceded by the
      separator when it is not the first, and the last part ends the join. */
  lemma {:induction false} JoinPieceAt(parts: seq<string>, sep: string, i: nat)
    requires i < |parts|
    ensures Offset(parts, sep, i) + |parts[i]| <= |Join(parts, sep)|
    ensures Join(parts, sep)[Offset(parts, sep, i)..Offset(parts, sep, i) + |parts[i]|] == parts[i]
    ensures i > 0 ==> (Offset(parts, sep, i) >= |sep|
                       && Join(parts, sep)[Offset(parts, sep, i) - |sep|..Offset(parts, sep, i)] == sep)
    ensures i == |parts| - 1 ==> |Join(parts, sep)| == Offset(parts, sep, i) + |parts[i]|
  {
    if i == 0 {
      JoinFirstPiece(parts, sep);
    } else {
      var rest, head := parts[1..], parts[0] + sep;
      var j, o := Join(rest, sep), Offset(rest, sep, i - 1);
      JoinPieceAt(rest, sep, i - 1);
      assert Join(parts, sep) == head + j;
      assert Offset(parts, sep, i) == |head| + o;
      assert rest[i - 1] == parts[i];
      assert head[|head| - |sep|..] == sep;
      ShiftPiece(head, j, Join(parts, sep), sep, parts[i], o, Offset(parts, sep, i));
    }
  }

  /** The join starts with the first part, and is that part alone when it
      is the only one. */
  lemma JoinFirstPiece(parts: seq<string>, sep: string)
    requires |parts| > 0
    ensures |parts[0]| <= |Join(parts, sep)| && Join(parts, sep)[..|parts[0]|] == parts[0]
    ensures |parts| == 1 ==> Join(parts, sep) == parts[0]
  {
    if |parts| > 1 {
      var tail := sep + Join(parts[1..], sep);
      assert Join(parts, sep) == parts[0] + tail;
      SliceOfLeft(parts[0], tail, 0, |parts[0]|);
    }
  }

  /** A piece of `jr` (preceded by `sep` unless it starts `jr`) is, after a
      `head` that ends with `sep`, a piece of `j == head + jr` preceded by
      `sep`. */
  lemma ShiftPiece(head: string, jr: string, j: string, sep: string, p: string, o: nat, q: nat)
    requires j == head + jr && q == |head| + o
    requires |sep| <= |head| && head[|head| - |sep|..] == sep
    requires o + |p| <= |jr| && jr[o..o + |p|] == p
    requires o > 0 ==> o >= |sep| && jr[o - |sep|..o] == sep
    ensures q + |p| <= |j| && j[q..q + |p|] == p
    ensures q >= |sep| && j[q - |sep|..q] == sep
  {
    SliceOfRight(head, jr, q, q + |p|);
    if o > 0 {
      SliceOfRight(head, jr, q - |sep|, q);
    } else {
      SliceOfLeft(head, jr, q - |sep|, q);
    }
  }

  /** `JoinPieceAt` for a join that follows a fixed prefix `h`. */
  lemma {:induction false} PrefixedJoinPieceAt(h: string, parts: seq<string>, sep: string, i: nat)
    requires i < |parts|
    ensures var r, o := h + Join(parts, sep), |h| + Offset(parts, sep, i);
            && o + |parts[i]| <= |r|
            && r[o..o + |parts[i]|] == parts[i]
            && (i > 0 ==> o >= |sep| && r[o - |sep|..o] == sep)
            && (i == |parts| - 1 ==> |r| == o + |parts[i]|)
  {
    var j := Join(parts, sep);
    var o := Offset(parts, sep, i);
    JoinPieceAt(parts, sep, i);
    SliceOfRight(h, j, |h| + o, |h| + o + |parts[i]|);
    if i > 0 {
      SliceOfRight(h, j, |h| + o - |sep|, |h| + o);
    }
  }

  /** `JoinPieceAt` for a join between a fixed prefix `h` and suffix `t`. */
  lemma {:induction false} FramedJoinPieceAt(h: string, parts: seq<string>, sep: string, t: string, i: nat)
    requires i < |parts|
    ensures var r, o := h + Join(parts, sep) + t, |h| + Offset(parts, sep, i);
            && o + |parts[i]| <= |r|
            && r[o..o + |parts[i]|] == parts[i]
            && (i > 0 ==> o >= |sep| && r[o - |sep|..o] == sep)
            && (i == |parts| - 1 ==> |r| == o + |parts[i]| + |t|)
  {
    var hj := h + Join(parts, sep);
    var o := |h| + Offset(parts, sep, i);
    PrefixedJoinPieceAt(h, parts, sep, i);
    SliceOfLeft(hj, t, o, o + |parts[i]|);
    if i > 0 {
      SliceOfLeft(hj, t, o - |sep|, o);
    }
  }

  /** Appending one part adds one separator and that part at the end. */
  lemma {:induction false} JoinAppend(parts: seq<string>, x: string, sep: string)
    ensures Join(parts + [x], sep) == if |parts| == 0 then x else Join(parts, sep) + sep + x
  {
    if |parts| > 1 {
      assert (parts + [x])[1..] == parts[1..] + [x];
      JoinAppend(parts[1..], x, sep);
    } else if |parts| == 1 {
      assert (parts + [x])[1..] == [x];
    }
  }

  /* ---------------------------------------------------------------------
     toLowerCase
     --------------------------------------------------------------------- */

  /** Lower-casing of one character, restricted to the ASCII letters. */
  function LowerChar(c: char): char
  {
    if 'A' <= c <= 'Z' then (c as int + ('a' as int - 'A' as int)) as char else c
  }

  /** `s.toLowerCase()` with ASCII case mapping: the same length, each
      character mapped on its own. */
  function ToLower(s: string): (r: string)
    ensures |r| == |s|
    ensures forall i :: 0 <= i < |s| ==> r[i] == LowerChar(s[i])
  {
    if |s| == 0 then "" else [LowerChar(s[0])] + ToLower(s[1..])
  }

  /** Lower-casing twice is lower-casing once. */
  lemma ToLowerIdempotent(s: string)
    ensures ToLower(ToLower(s)) == ToLower(s)
  {
  }

  /* ---------------------------------------------------------------------
     split(/\s+/)
     --------------------------------------------------------------------- */

  /** The characters of the ECMAScript `\s` class: WhiteSpace (tab, vertical
      tab, form feed, space, no-break space, byte-order mark and the Unicode
      space separators) and LineTerminator (LF, CR, LS, PS). */
  predicate IsWhitespace(c: char)
  {
    || c == '\t' || c == '\n' || c == '\U{B}' || c == '\U{C}' || c == '\r' || c == ' '
    || c == '\U{A0}' || c == '\U{1680}' || ('\U{2000}' <= c <= '\U{200A}')
    || c == '\U{2028}' || c == '\U{2029}' || c == '\U{202F}' || c == '\U{205F}'
    || c == '\U{3000}' || c == '\U{FEFF}'
  }

  predicate NoWhitespace(s: string)
  {
    forall k :: 0 <= k < |s| ==> !IsWhitespace(s[k])
  }

  /** End of the run of non-whitespace characters starting at `i`. */
  function WordEnd(s: string, i: nat): (j: nat)
    requires i <= |s|
    ensures i <= j <= |s|
    ensures forall k :: i <= k < j ==> !IsWhitespace(s[k])
    ensures j < |s| ==> IsWhitespace(s[j])
    decreases |s| - i
  {
    if i == |s| || IsWhitespace(s[i]) then i else WordEnd(s, i + 1)
  }

  /** End of the run of whitespace characters starting at `i`. */
  function RunEnd(s: string, i: nat): (j: nat)
    requires i <= |s|
    ensures i <= j <= |s|
    ensures forall k :: i <= k < j ==> IsWhitespace(s[k])
    ensures j < |s| ==> !IsWhitespace(s[j])
    decreases |s| - i
  {
    if i == |s| || !IsWhitespace(s[i]) then i else RunEnd(s, i + 1)
  }

  /** The pieces of `s[i..]` between maximal runs of whitespace. */
  function SplitFrom(s: string, i: nat): (r: seq<string>)
    requires i <= |s|
    ensures |r| > 0
    ensures forall p :: 0 <= p < |r| ==> NoWhitespace(r[p])
    decreases |s| - i
  {
    var j := WordEnd(s, i);
    if j == |s| then [s[i..]]
    else [s[i..j]] + SplitFrom(s, RunEnd(s, j))
  }

  /** `s.split(/\s+/)`: the pieces between maximal whitespace runs, with an
      empty first piece when `s` starts with whitespace and an empty last
      piece when it ends with whitespace (`"".split(/\s+/)` is `[""]`). */
  function SplitWhitespace(s: string): (r: seq<string>)
    ensures |r| > 0
    ensures forall p :: 0 <= p < |r| ==> NoWhitespace(r[p])
  {
    SplitFrom(s, 0)
  }

  /** `s` with every whitespace character removed. */
  function RemoveWhitespace(s: string): string
  {
    if |s| == 0 then ""
    else (if IsWhitespace(s[0]) then "" else [s[0]]) + RemoveWhitespace(s[1..])
  }

  /** The concatenation of all parts. */
  function Concat(parts: seq<string>): string
  {
    if |parts| == 0 then "" else parts[0] + Concat(parts[1..])
  }

  lemma {:induction false} RemoveWhitespaceAppend(a: string, b: string)
    ensures RemoveWhitespace(a + b) == RemoveWhitespace(a) + RemoveWhitespace(b)
  {
    if |a| > 0 {
      assert (a + b)[1..] == a[1..] + b;
      RemoveWhitespaceAppend(a[1..], b);
    } else {
      assert a + b == b;
    }
  }

  lemma {:induction false} RemoveWhitespaceWord(s: string)
    requires NoWhitespace(s)
    ensures RemoveWhitespace(s) == s
  {
    if |s| > 0 {
      RemoveWhitespaceWord(s[1..]);
    }
  }

  lemma {:induction false} RemoveWhitespaceRun(s: string)
    requires forall k :: 0 <= k < |s| ==> IsWhitespace(s[k])
    ensures RemoveWhitespace(s) == ""
  {
    if |s| > 0 {
      RemoveWhitespaceRun(s[1..]);
    }
  }

  lemma ConcatCons(x: string, rest: seq<string>)
    ensures Concat([x] + rest) == x + Concat(rest)
  {
    assert ([x] + rest)[1..] == rest;
  }

  /** Removing whitespace from a word, then a whitespace run, then the
      rest leaves the word followed by the rest without whitespace. */
  lemma {:induction false} RemoveWhitespaceAfterWord(word: string, run: string, tail: string)
    requires NoWhitespace(word)
    requires forall k :: 0 <= k < |run| ==> IsWhitespace(run[k])
    ensures RemoveWhitespace(word + (run + tail)) == word + RemoveWhitespace(tail)
  {
    RemoveWhitespaceWord(word);
    RemoveWhitespaceRun(run);
    RemoveWhitespaceAppend(run, tail);
    RemoveWhitespaceAppend(word, run + tail);
  }

  lemma SliceThree<T>(s: seq<T>, i: nat, j: nat, k: nat)
    requires i <= j <= k <= |s|
    ensures s[i..] == s[i..j] + (s[j..k] + s[k..])
  {
  }

  lemma {:induction false} SplitFromKeepsText(s: string, i: nat)
    requires i <= |s|
    ensures Concat(SplitFrom(s, i)) == RemoveWhitespace(s[i..])
    decreases |s| - i
  {
    var j := WordEnd(s, i);
    var word := s[i..j];
    if j == |s| {
      assert s[i..] == word;
      assert SplitFrom(s, i) == [word];
      RemoveWhitespaceWord(word);
      ConcatCons(word, []);
    } else {
      var k := RunEnd(s, j);
      var rest := SplitFrom(s, k);
      assert SplitFrom(s, i) == [word] + rest;
      SplitFromKeepsText(s, k);
      SliceThree(s, i, j, k);
      RemoveWhitespaceAfterWord(word, s[j..k], s[k..]);
      ConcatCons(word, rest);
    }
  }

  /** Splitting loses nothing but whitespace: the pieces, put back together,
      are the input with its whitespace removed (and, by `SplitFrom`'s
      contract, no piece holds whitespace). */
  lemma SplitWhitespaceKeepsText(s: string)
    ensures Concat(SplitWhitespace(s)) == RemoveWhitespace(s)
  {
    SplitFromKeepsText(s, 0);
    assert s[0..] == s;
  }

  predicate AllWhitespace(g: string)
  {
    forall k :: 0 <= k < |g| ==> IsWhitespace(g[k])
  }

  /** `WordEnd` is the only end of a non-whitespace run starting at `i`. */
  lemma WordEndUnique(s: string, i: nat, j: nat)
    requires i <= j <= |s|
    requires forall k :: i <= k < j ==> !IsWhitespace(s[k])
    requires j < |s| ==> IsWhitespace(s[j])
    ensures WordEnd(s, i) == j
  {
  }

  /** `RunEnd` is the only end of a whitespace run starting at `i`. */
  lemma RunEndUnique(s: string, i: nat, j: nat)
    requires i <= j <= |s|
    requires forall k :: i <= k < j ==> IsWhitespace(s[k])
    requires j < |s| ==> !IsWhitespace(s[j])
    ensures RunEnd(s, i) == j
  {
  }

  /** Text laid out as `words[0] + gaps[0] + words[1] + ... + words[n]`. */
  function Unsplit(words: seq<string>, gaps: seq<string>): string
    requires |words| == |gaps| + 1
    decreases |gaps|
  {
    if |gaps| == 0 then words[0] else words[0] + gaps[0] + Unsplit(words[1..], gaps[1..])
  }

  /** Words without whitespace, all but the first and the last non-empty,
      separated by non-empty runs of whitespace. */
  predicate WellSeparated(words: seq<string>, gaps: seq<string>)
  {
    && |words| == |gaps| + 1
    && (forall q :: 0 <= q < |words| ==> NoWhitespace(words[q]))
    && (forall q :: 0 < q < |words| - 1 ==> words[q] != "")
    && (forall q :: 0 <= q < |gaps| ==> gaps[q] != "" && AllWhitespace(gaps[q]))
  }

  /** The three consecutive slices of a concatenation. */
  lemma ThreeSlices(x: string, a: string, b: string, c: string)
    requires x == a + b + c
    ensures x[..|a|] == a && x[|a|..|a| + |b|] == b && x[|a| + |b|..] == c
  {
  }

  /** `split(/\s+/)` cuts exactly at the maximal whitespace runs: text laid
      out as words separated by whitespace runs splits into those words
      (with an empty first word for leading whitespace and an empty last
      word for trailing whitespace). */
  lemma SplitUnsplit(words: seq<string>, gaps: seq<string>)
    requires WellSeparated(words, gaps)
    ensures SplitWhitespace(Unsplit(words, gaps)) == words
  {
    var s := Unsplit(words, gaps);
    assert s[0..] == s;
    SplitFromUnsplit(s, 0, words, gaps);
  }

  lemma {:induction false} SplitFromUnsplit(s: string, i: nat, words: seq<string>, gaps: seq<string>)
    requires i <= |s| && WellSeparated(words, gaps) && s[i..] == Unsplit(words, gaps)
    ensures SplitFrom(s, i) == words
    decreases |gaps|
  {
    if |gaps| == 0 {
      SplitOnlyWord(s, i, words);
    } else {
      var k := i + |words[0]| + |gaps[0]|;
      SplitFirstWord(s, i, words, gaps, k);
      SplitFromUnsplit(s, k, words[1..], gaps[1..]);
    }
  }

  /** Text without whitespace is a single piece. */
  lemma SplitOnlyWord(s: string, i: nat, words: seq<string>)
    requires i <= |s| && |words| == 1 && s[i..] == words[0] && NoWhitespace(words[0])
    ensures SplitFrom(s, i) == words
  {
    assert words == [words[0]];
    forall q | i <= q < |s| ensures !IsWhitespace(s[q]) {
      assert s[q] == s[i..][q - i];
    }
    WordEndUnique(s, i, |s|);
  }

  /** The first word of laid-out text is the first piece, and the split
      goes on with the rest of the layout after the first gap. */
  lemma SplitFirstWord(s: string, i: nat, words: seq<string>, gaps: seq<string>, k: nat)
    requires i <= |s| && WellSeparated(words, gaps) && s[i..] == Unsplit(words, gaps)
    requires |gaps| > 0 && k == i + |words[0]| + |gaps[0]|
    ensures k <= |s| && WellSeparated(words[1..], gaps[1..]) && s[k..] == Unsplit(words[1..], gaps[1..])
    ensures SplitFrom(s, k) == words[1..] ==> SplitFrom(s, i) == words
  {
    assert words == [words[0]] + words[1..];
    var w, g := words[0], gaps[0];
    var rest := Unsplit(words[1..], gaps[1..]);
    assert WellSeparated(words[1..], gaps[1..]);
    UnsplitOpensWithWord(words[1..], gaps[1..]);
    WordThenGap(s, i, w, g, rest, k);
  }

  /** Laid-out text starts with a non-whitespace character unless its first
      word is empty. */
  lemma UnsplitOpensWithWord(words: seq<string>, gaps: seq<string>)
    requires WellSeparated(words, gaps) && (words[0] != "" || |gaps| == 0)
    ensures var t := Unsplit(words, gaps); t == "" || !IsWhitespace(t[0])
  {
    if |gaps| > 0 {
      var t := Unsplit(words, gaps);
      assert t == words[0] + (gaps[0] + Unsplit(words[1..], gaps[1..]));
      assert t[0] == words[0][0];
    }
  }

  /** From `i`, a word, a whitespace run and text that does not start with
      whitespace: the split takes the word and goes on after the run. */
  lemma WordThenGap(s: string, i: nat, w: string, g: string, rest: string, k: nat)
    requires i <= |s| && s[i..] == w + g + rest
    requires NoWhitespace(w) && g != "" && AllWhitespace(g)
    requires rest == "" || !IsWhitespace(rest[0])
    requires k == i + |w| + |g|
    ensures k <= |s| && s[k..] == rest
    ensures SplitFrom(s, i) == [w] + SplitFrom(s, k)
  {
    var j := i + |w|;
    WordEndsAtGap(s, i, w, g, rest);
    GapEndsAtRest(s, i, w, g, rest, k);
    assert SplitFrom(s, i) == [s[i..j]] + SplitFrom(s, RunEnd(s, j));
  }

  /** The word ends where the whitespace run starts. */
  lemma WordEndsAtGap(s: string, i: nat, w: string, g: string, rest: string)
    requires i <= |s| && s[i..] == w + g + rest
    requires NoWhitespace(w) && g != "" && AllWhitespace(g)
    ensures i + |w| < |s| && WordEnd(s, i) == i + |w| && s[i..i + |w|] == w
  {
    var j := i + |w|;
    ThreePartsAt(s, i, w, g, rest);
    forall q | i <= q < j ensures !IsWhitespace(s[q]) {
      assert s[i + (q - i)] == w[q - i];
    }
    assert s[j] == g[0];
    WordEndUnique(s, i, j);
  }

  /** The whitespace run after the word ends where `rest` starts. */
  lemma GapEndsAtRest(s: string, i: nat, w: string, g: string, rest: string, k: nat)
    requires i <= |s| && s[i..] == w + g + rest
    requires AllWhitespace(g)
    requires rest == "" || !IsWhitespace(rest[0])
    requires k == i + |w| + |g|
    ensures k <= |s| && s[k..] == rest && RunEnd(s, i + |w|) == k
  {
    var j := i + |w|;
    ThreePartsAt(s, i, w, g, rest);
    forall q | j <= q < k ensures IsWhitespace(s[q]) {
      assert s[j + (q - j)] == g[q - j];
    }
    RunEndUnique(s, j, k);
  }

  /** The elements of `s` from `i` on when they are `a + b + c`. */
  lemma ThreePartsAt<T>(s: seq<T>, i: nat, a: seq<T>, b: seq<T>, c: seq<T>)
    requires i <= |s| && s[i..] == a + b + c
    ensures |s| == i + |a| + |b| + |c|
    ensures forall q :: 0 <= q < |a| ==> s[i + q] == a[q]
    ensures forall q :: 0 <= q < |b| ==> s[i + |a| + q] == b[q]
    ensures |c| > 0 ==> s[i + |a| + |b|] == c[0]
    ensures s[i..i + |a|] == a && s[i + |a| + |b|..] == c
  {
    forall q | 0 <= q < |a| ensures s[i + q] == a[q] {
      assert s[i + q] == s[i..][q];
    }
    forall q | 0 <= q < |b| ensures s[i + |a| + q] == b[q] {
      assert s[i + |a| + q] == s[i..][|a| + q];
    }
    if |c| > 0 {
      assert s[i + |a| + |b|] == s[i..][|a| + |b|];
    }
    assert s[i..i + |a|] == s[i..][..|a|];
    assert s[i + |a| + |b|..] == s[i..][|a| + |b|..];
  }

  /** A non-empty run of non-whitespace characters with whitespace, or the
      edge of the text, on both sides is one of the pieces. */
  lemma {:induction false} WordInSplitFrom(s: string, i: nat, p: nat, w: string)
    requires i <= p && p + |w| <= |s| && s[p..p + |w|] == w
    requires w != "" && NoWhitespace(w)
    requires p == i || IsWhitespace(s[p - 1])
    requires p + |w| == |s| || IsWhitespace(s[p + |w|])
    ensures w in SplitFrom(s, i)
    decreases |s| - i
  {
    forall q | p <= q < p + |w| ensures !IsWhitespace(s[q]) {
      assert s[q] == s[p..p + |w|][q - p];
    }
    var j := WordEnd(s, i);
    if p == i {
      WordEndUnique(s, i, p + |w|);
      assert SplitFrom(s, i)[0] == s[i..j];
    } else {
      assert j <= p - 1;
      var k := RunEnd(s, j);
      assert !IsWhitespace(s[p]);
      assert k <= p;
      assert SplitFrom(s, i) == [s[i..j]] + SplitFrom(s, k);
      WordInSplitFrom(s, k, p, w);
    }
  }

  /** `w` between whitespace (or the edges) in `a + w + b` is a piece of
      its split. */
  lemma WordInSplit(a: string, w: string, b: string)
    requires w != "" && NoWhitespace(w)
    requires a == "" || IsWhitespace(a[|a| - 1])
    requires b == "" || IsWhitespace(b[0])
    ensures w in SplitWhitespace(a + w + b)
  {
    var s := a + w + b;
    ThreeSlices(s, a, w, b);
    if |a| > 0 {
      assert s[|a| - 1] == a[|a| - 1];
    }
    if |b| > 0 {
      assert s[|a| + |w|] == b[0];
    }
    WordInSplitFrom(s, 0, |a|, w);
  }

  /* ---------------------------------------------------------------------
     replace(/[:.]/g, '-')
     --------------------------------------------------------------------- */

  /** `s.replace(/[:.]/g, '-')`: every `:` and every `.` becomes `-`; every
      other character stays where it is. */
  function ReplaceColonsAndDots(s: string): (r: string)
    ensures |r| == |s|
    ensures forall i :: 0 <= i < |s| ==>
              r[i] == (if s[i] == ':' || s[i] == '.' then '-' else s[i])
  {
    if |s| == 0 then ""
    else [if s[0] == ':' || s[0] == '.' then '-' else s[0]] + ReplaceColonsAndDots(s[1..])
  }

  /** The result holds no `:` and no `.`. */
  lemma ReplaceLeavesNoSeparators(s: string)
    ensures forall i :: 0 <= i < |s| ==>
              ReplaceColonsAndDots(s)[i] != ':' && ReplaceColonsAndDots(s)[i] != '.'
  {
  }

  /** Replacing a second time changes nothing. */
  lemma ReplaceIdempotent(s: string)
    ensures ReplaceColonsAndDots(ReplaceColonsAndDots(s)) == ReplaceColonsAndDots(s)
  {
  }

  /* ---------------------------------------------------------------------
     `${n}` for a non-negative integer
     --------------------------------------------------------------------- */

  predicate IsDigit(c: char) { '0' <= c <= '9' }

  function DigitChar(d: nat): (c: char)
    requires d < 10
    ensures IsDigit(c)
  {
    ('0' as int + d) as char
  }

  /** The decimal rendering of `n`: digits only, no leading zero. */
  function Decimal(n: nat): (r: string)
    ensures |r| > 0
    ensures forall i :: 0 <= i < |r| ==> IsDigit(r[i])
    ensures |r| > 1 ==> r[0] != '0'
    decreases n
  {
    if n < 10 then [DigitChar(n)] else Decimal(n / 10) + [DigitChar(n % 10)]
  }

  /** The value of a string of decimal digits. */
  function DecimalValue(s: string): nat
    requires forall i :: 0 <= i < |s| ==> IsDigit(s[i])
  {
    if |s| == 0 then 0
    else
      var last := s[|s| - 1];
      assert IsDigit(last);
      10 * DecimalValue(s[..|s| - 1]) + (last as int - '0' as int)
  }

  /** Reading the rendering back gives the number. */
  lemma {:induction false} DecimalRoundTrip(n: nat)
    ensures DecimalValue(Decimal(n)) == n
    decreases n
  {
    var r := Decimal(n);
    if n >= 10 {
      DecimalRoundTrip(n / 10);
      assert r[..|r| - 1] == Decimal(n / 10);
    }
  }
}
