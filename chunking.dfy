/** The streaming presenter: a finished answer is split on runs of
    whitespace, as Python's str.split() with no argument does, and every
    word is sent on as the word followed by one space. */
module Chunking {

  /** Python's str.isspace() for a single character: the ASCII controls
      TAB, LF, VT, FF, CR and the separators 0x1C-0x1F, SPACE, NEL, NO-BREAK
      SPACE and the Unicode space and line/paragraph separators. */
  predicate IsSpace(c: char) {
    ('\t' <= c <= '\r') || ('\U{1C}' <= c <= ' ') || c == '\U{85}' || c == '\U{A0}'
    || c == '\U{1680}' || ('\U{2000}' <= c <= '\U{200A}')
    || c == '\U{2028}' || c == '\U{2029}' || c == '\U{202F}' || c == '\U{205F}'
    || c == '\U{3000}'
  }

  /** A word: no whitespace character anywhere in it. */
  predicate NoSpace(w: string) {
    forall i :: 0 <= i < |w| ==> !IsSpace(w[i])
  }

  /** The length of the run of non-whitespace characters that starts s: a
      prefix with no whitespace that is followed by whitespace or the end. */
  function WordLength(s: string): (n: nat)
    ensures n <= |s|
    ensures NoSpace(s[..n])
    ensures n < |s| ==> IsSpace(s[n])
  {
    if s == [] || IsSpace(s[0]) then 0 else 1 + WordLength(s[1..])
  }

  /** The reference definition of str.split(): skip whitespace, take the
      maximal run of non-whitespace as a word, repeat. Every word it yields
      is non-empty and holds no whitespace. */
  function Split(s: string): (words: seq<string>)
    ensures forall i :: 0 <= i < |words| ==> words[i] != [] && NoSpace(words[i])
    decreases |s|
  {
    if s == [] then []
    else if IsSpace(s[0]) then Split(s[1..])
    else
      var n := WordLength(s);
      [s[..n]] + Split(s[n..])
  }

  /** One streamed chunk: the word and a single space (main.py's word + " "). */
  function Chunk(word: string): (c: string)
    ensures |c| == |word| + 1 && c[..|word|] == word && c[|word|] == ' '
  {
    word + " "
  }

  /** The text a client receives: all chunks, one after the other. */
  function Joined(words: seq<string>): string
  {
    if words == [] then "" else Chunk(words[0]) + Joined(words[1..])
  }

  /** All characters of s that are not whitespace, in order. */
  function RemoveSpaces(s: string): string
  {
    if s == [] then ""
    else if IsSpace(s[0]) then RemoveSpaces(s[1..])
    else [s[0]] + RemoveSpaces(s[1..])
  }

  /** The words one after the other, without separators. */
  function Concat(words: seq<string>): string
  {
    if words == [] then "" else words[0] + Concat(words[1..])
  }

  /** A word followed by whitespace or by nothing is the leading word. */
  lemma {:induction false} WordLengthOfWord(w: string, rest: string)
    requires NoSpace(w)
    requires rest == [] || IsSpace(rest[0])
    ensures WordLength(w + rest) == |w|
  {
    if w != [] {
      assert (w + rest)[1..] == w[1..] + rest;
      WordLengthOfWord(w[1..], rest);
    } else {
      assert w + rest == rest;
    }
  }

  /** Splitting a word followed by whitespace (or nothing) yields that word
      and then the words of the rest. */
  lemma SplitAfterWord(w: string, rest: string)
    requires w != [] && NoSpace(w)
    requires rest == [] || IsSpace(rest[0])
    ensures Split(w + rest) == [w] + Split(rest)
  {
    WordLengthOfWord(w, rest);
    var s := w + rest;
    assert s[..|w|] == w;
    assert s[|w|..] == rest;
  }

  /** Leading whitespace is skipped. */
  lemma SplitAfterSpace(c: char, rest: string)
    requires IsSpace(c)
    ensures Split([c] + rest) == Split(rest)
  {
    assert ([c] + rest)[1..] == rest;
  }

  /** Round trip of the stream: splitting the streamed text again gives back
      exactly the words that were streamed. */
  lemma {:induction false} SplitJoined(words: seq<string>)
    requires forall i :: 0 <= i < |words| ==> words[i] != [] && NoSpace(words[i])
    ensures Split(Joined(words)) == words
  {
    if words != [] {
      var rest := Joined(words[1..]);
      SplitJoined(words[1..]);
      assert Joined(words) == words[0] + ([' '] + rest);
      SplitAfterWord(words[0], [' '] + rest);
      SplitAfterSpace(' ', rest);
    }
  }

  /** The chunks the stream sends, put together and re-split on the client
      side, give back the words of the answer. */
  lemma StreamPreservesTokens(answer: string)
    ensures Split(Concat(Chunked(Split(answer)))) == Split(answer)
  {
    JoinedIsConcatOfChunks(Split(answer));
    SplitJoined(Split(answer));
  }

  lemma {:induction false} RemoveSpacesAppend(a: string, b: string)
    ensures RemoveSpaces(a + b) == RemoveSpaces(a) + RemoveSpaces(b)
  {
    if a != [] {
      assert (a + b)[1..] == a[1..] + b;
      RemoveSpacesAppend(a[1..], b);
    } else {
      assert a + b == b;
    }
  }

  lemma {:induction false} RemoveSpacesOfWord(w: string)
    requires NoSpace(w)
    ensures RemoveSpaces(w) == w
  {
    if w != [] {
      RemoveSpacesOfWord(w[1..]);
    }
  }

  /** Nothing but whitespace is lost, and nothing is reordered: the words,
      put together without separators, are the answer with its whitespace
      removed. */
  lemma {:induction false} SplitKeepsNonSpace(s: string)
    ensures Concat(Split(s)) == RemoveSpaces(s)
    decreases |s|
  {
    if s == [] {
    } else if IsSpace(s[0]) {
      SplitKeepsNonSpace(s[1..]);
    } else {
      var n := WordLength(s);
      SplitKeepsNonSpace(s[n..]);
      assert s == s[..n] + s[n..];
      RemoveSpacesAppend(s[..n], s[n..]);
      RemoveSpacesOfWord(s[..n]);
    }
  }

  /** An answer yields no words exactly when it is all whitespace (the empty
      answer included). */
  lemma {:induction false} SplitEmptyIff(s: string)
    ensures Split(s) == [] <==> forall i :: 0 <= i < |s| ==> IsSpace(s[i])
    decreases |s|
  {
    if s != [] && IsSpace(s[0]) {
      SplitEmptyIff(s[1..]);
      if forall i :: 0 <= i < |s[1..]| ==> IsSpace(s[1..][i]) {
        forall i | 0 <= i < |s| ensures IsSpace(s[i]) {
          if i > 0 { assert s[i] == s[1..][i - 1]; }
        }
      }
    }
  }

  /** Trailing whitespace adds no word. */
  lemma {:induction false} SplitTrailingSpace(s: string, c: char)
    requires IsSpace(c)
    ensures Split(s + [c]) == Split(s)
    decreases |s|
  {
    if s == [] {
      SplitAfterSpace(c, []);
      assert [c] + [] == [c];
    } else if IsSpace(s[0]) {
      assert (s + [c])[1..] == s[1..] + [c];
      SplitTrailingSpace(s[1..], c);
    } else {
      var n := WordLength(s);
      WordLengthOfWord(s[..n], s[n..] + [c]);
      assert s + [c] == s[..n] + (s[n..] + [c]);
      assert (s + [c])[..n] == s[..n];
      assert (s + [c])[n..] == s[n..] + [c];
      SplitTrailingSpace(s[n..], c);
    }
  }

  /** One whitespace character of the scan, at index i of s, where the
      word being collected started at index start. */
  lemma SplitAtSpace(s: string, start: nat, i: nat)
    requires start <= i < |s|
    requires NoSpace(s[start..i]) && IsSpace(s[i])
    ensures start < i ==> Split(s[start..]) == [s[start..i]] + Split(s[i + 1..])
    ensures start == i ==> Split(s[start..]) == Split(s[i + 1..])
  {
    SliceAt(s, i, i + 1);
    SplitAfterSpace(s[i], s[i + 1..]);
    if start < i {
      SliceAt(s, start, i);
      SplitAfterWord(s[start..i], s[i..]);
    }
  }

  /** A suffix is cut in two at any index inside it. */
  lemma SliceAt<T>(s: seq<T>, a: nat, b: nat)
    requires a <= b <= |s|
    ensures s[a..] == s[a..b] + s[b..]
  {
  }

  /** The words found so far, once the word being collected is finished:
      an empty word is no word. */
  function Finish(done: seq<string>, word: string): seq<string>
  {
    if word == [] then done else done + [word]
  }

  /** The scan at a whitespace character at index i: the words still to
      come from start on are the finished word, if there is one, and then
      the words after i. */
  lemma ScanSpace(s: string, done: seq<string>, start: nat, i: nat)
    requires start <= i < |s|
    requires NoSpace(s[start..i]) && IsSpace(s[i])
    requires Split(s) == done + Split(s[start..])
    ensures Split(s) == Finish(done, s[start..i]) + Split(s[i + 1..])
  {
    SplitAtSpace(s, start, i);
    if start < i {
      AppendAssoc(done, [s[start..i]], Split(s[i + 1..]));
    }
  }

  lemma AppendAssoc<T>(a: seq<T>, b: seq<T>, c: seq<T>)
    ensures a + (b + c) == (a + b) + c
  {
  }

  /** A stretch of s without whitespace is a word. */
  lemma NoSpaceSlice(s: string, a: nat, b: nat)
    requires a <= b <= |s|
    requires forall k :: a <= k < b ==> !IsSpace(s[k])
    ensures NoSpace(s[a..b])
  {
  }

  /** The end of the scan: what is left is one word, or nothing. */
  lemma SplitAtEnd(s: string, start: nat)
    requires start <= |s|
    requires NoSpace(s[start..])
    ensures start < |s| ==> Split(s[start..]) == [s[start..]]
    ensures start == |s| ==> Split(s[start..]) == []
  {
    if start < |s| {
      assert s[start..] + [] == s[start..];
      SplitAfterWord(s[start..], []);
    }
  }

  /** The chunks streamed for a list of words: one per word, in order. */
  function Chunked(words: seq<string>): (chunks: seq<string>)
    ensures |chunks| == |words|
    ensures forall k :: 0 <= k < |words| ==> chunks[k] == words[k] + " "
  {
    seq(|words|, k requires 0 <= k < |words| => Chunk(words[k]))
  }

  /** The text a client receives is the streamed chunks one after the
      other. */
  lemma {:induction false} JoinedIsConcatOfChunks(words: seq<string>)
    ensures Concat(Chunked(words)) == Joined(words)
  {
    if words != [] {
      assert Chunked(words)[1..] == Chunked(words[1..]);
      JoinedIsConcatOfChunks(words[1..]);
    }
  }

  /** The split-and-yield loop of stream_answer. The answer is scanned one
      character at a time, as str.split() does: a word ends at whitespace or
      at the end of the answer. Then every word becomes one chunk, in order.
      The words are those of the reference split. */
  method StreamChunks(answer: string) returns (chunks: seq<string>)
    ensures chunks == Chunked(Split(answer))
  {
    var words: seq<string> := [];
    var start, i := 0, 0;
    assert answer[start..] == answer;
    while i < |answer|
      invariant 0 <= start <= i <= |answer|
      invariant forall k :: start <= k < i ==> !IsSpace(answer[k])
      invariant Split(answer) == words + Split(answer[start..])
    {
      if IsSpace(answer[i]) {
        NoSpaceSlice(answer, start, i);
        ScanSpace(answer, words, start, i);
        words := Finish(words, answer[start..i]);
        start := i + 1;
      }
      i := i + 1;
    }
    NoSpaceSlice(answer, start, i);
    assert answer[start..i] == answer[start..];
    SplitAtEnd(answer, start);
    words := Finish(words, answer[start..]);
    chunks := Chunked(words);
  }
}
