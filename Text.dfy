/**
 * The parts of Python's `str` that the retriever relies on: `strip()`,
 * `split()` with no argument, `sep.join(parts)`, and the sentence split
 * `re.split(r'[।॥।|!?\.]', text)`. A `char` is one Unicode code point, as one
 * unit of Python's `len`.
 */
module Text {

  /** Python's `str.isspace()`: the characters `strip()` and `split()` treat as white space. */
  predicate IsSpace(c: char)
  {
    var n := c as int;
    n == 0x20 || 0x09 <= n <= 0x0D || 0x1C <= n <= 0x1F || n == 0x85 || n == 0xA0 ||
    n == 0x1680 || 0x2000 <= n <= 0x200A || n == 0x2028 || n == 0x2029 ||
    n == 0x202F || n == 0x205F || n == 0x3000
  }

  predicate NoSpace(s: string)
  {
    forall i :: 0 <= i < |s| ==> !IsSpace(s[i])
  }

  /** Neither end of `s` is white space. */
  predicate IsStripped(s: string)
  {
    s == [] || (!IsSpace(s[0]) && !IsSpace(s[|s| - 1]))
  }

  /** `s.lstrip()`. */
  function TrimStart(s: string): (r: string)
    ensures |r| <= |s|
    ensures r == [] || !IsSpace(r[0])
  {
    if s != [] && IsSpace(s[0]) then TrimStart(s[1..]) else s
  }

  /** `lstrip()` removes a run of white space from the front and nothing else. */
  lemma {:induction false} TrimStartSlice(s: string)
    ensures var r := TrimStart(s);
            && r == s[|s| - |r|..]
            && forall i :: 0 <= i < |s| - |r| ==> IsSpace(s[i])
  {
    if s != [] && IsSpace(s[0]) {
      TrimStartSlice(s[1..]);
    }
  }

  /** `s.rstrip()`. */
  function TrimEnd(s: string): (r: string)
    ensures |r| <= |s|
    ensures r == [] || !IsSpace(r[|r| - 1])
  {
    if s != [] && IsSpace(s[|s| - 1]) then TrimEnd(s[..|s| - 1]) else s
  }

  /** `rstrip()` removes a run of white space from the end and nothing else. */
  lemma {:induction false} TrimEndSlice(s: string)
    ensures var r := TrimEnd(s);
            && r == s[..|r|]
            && forall i :: |r| <= i < |s| ==> IsSpace(s[i])
  {
    if s != [] && IsSpace(s[|s| - 1]) {
      TrimEndSlice(s[..|s| - 1]);
    }
  }

  /** `s.strip()`. */
  function Strip(s: string): (r: string)
    ensures |r| <= |s|
  {
    TrimEnd(TrimStart(s))
  }

  /** Neither end of a stripped text is white space. */
  lemma StripIsStripped(s: string)
    ensures IsStripped(Strip(s))
  {
    TrimEndSlice(TrimStart(s));
  }

  /** Stripping keeps a slice of the text, so it adds no sentence end. */
  lemma StripNoSentenceEnd(s: string)
    requires NoSentenceEnd(s)
    ensures NoSentenceEnd(Strip(s))
  {
    var t := TrimStart(s);
    var r := TrimEnd(t);
    TrimStartSlice(s);
    TrimEndSlice(t);
    assert forall i :: 0 <= i < |r| ==> r[i] == t[i] == s[|s| - |t| + i];
  }

  /** Stripping leaves nothing exactly when the text is all white space. */
  lemma StripEmpty(s: string)
    ensures Strip(s) == [] <==> forall i :: 0 <= i < |s| ==> IsSpace(s[i])
  {
    var t := TrimStart(s);
    TrimStartSlice(s);
    TrimEndSlice(t);
    if t != [] {
      assert t[0] == s[|s| - |t|];
    }
  }

  lemma StripStripped(s: string)
    requires IsStripped(s)
    ensures Strip(s) == s
  {
  }

  // ---------------------------------------------------------------------------
  // `sep.join(parts)`

  /** The join is empty exactly when every part is, and no separator is written between two of them. */
  function Join(sep: string, parts: seq<string>): (r: string)
    ensures r == [] <==> (forall i :: 0 <= i < |parts| ==> parts[i] == []) && (|parts| <= 1 || sep == [])
  {
    if |parts| == 0 then []
    else if |parts| == 1 then parts[0]
    else parts[0] + sep + Join(sep, parts[1..])
  }

  // ---------------------------------------------------------------------------
  // `re.split(r'[।॥।|!?\.]', text)`

  /** The character class the truncator splits sentences on. */
  predicate IsSentenceEnd(c: char)
  {
    c == '।' || c == '॥' || c == '|' || c == '!' || c == '?' || c == '.'
  }

  predicate NoSentenceEnd(s: string)
  {
    forall i :: 0 <= i < |s| ==> !IsSentenceEnd(s[i])
  }

  /** The pieces between sentence ends, empty pieces included: one more piece than there are sentence ends. */
  function SplitSentences(s: string): (r: seq<string>)
    ensures |r| >= 1
    ensures forall i :: 0 <= i < |r| ==> NoSentenceEnd(r[i])
  {
    if s == [] then [[]]
    else if IsSentenceEnd(s[0]) then [[]] + SplitSentences(s[1..])
    else
      var rest := SplitSentences(s[1..]);
      [[s[0]] + rest[0]] + rest[1..]
  }

  function SentenceEndCount(s: string): nat
  {
    if s == [] then 0 else (if IsSentenceEnd(s[0]) then 1 else 0) + SentenceEndCount(s[1..])
  }

  lemma {:induction false} SplitSentencesCount(s: string)
    ensures |SplitSentences(s)| == SentenceEndCount(s) + 1
  {
    if s != [] {
      SplitSentencesCount(s[1..]);
    }
  }

  /** Text without a sentence end is one piece. */
  lemma {:induction false} SplitWithoutSentenceEnd(p: string)
    requires NoSentenceEnd(p)
    ensures SplitSentences(p) == [p]
  {
    if p != [] {
      SplitWithoutSentenceEnd(p[1..]);
      assert [p[0]] + p[1..] == p;
    }
  }

  /** A sentence end closes the first piece. */
  lemma {:induction false} SplitAtSentenceEnd(p: string, d: char, rest: string)
    requires NoSentenceEnd(p) && IsSentenceEnd(d)
    ensures SplitSentences(p + [d] + rest) == [p] + SplitSentences(rest)
  {
    var s := p + [d] + rest;
    if p == [] {
      assert s[0] == d && s[1..] == rest;
    } else {
      assert s[0] == p[0] && s[1..] == p[1..] + [d] + rest;
      SplitAtSentenceEnd(p[1..], d, rest);
      assert [p[0]] + p[1..] == p;
    }
  }

  /** Joining pieces free of sentence ends with one sentence end, then splitting, gives the pieces back. */
  lemma {:induction false} SplitJoinRoundTrip(d: char, parts: seq<string>)
    requires IsSentenceEnd(d) && parts != []
    requires forall i :: 0 <= i < |parts| ==> NoSentenceEnd(parts[i])
    ensures SplitSentences(Join([d], parts)) == parts
  {
    if |parts| == 1 {
      SplitWithoutSentenceEnd(parts[0]);
    } else {
      SplitJoinRoundTrip(d, parts[1..]);
      SplitAtSentenceEnd(parts[0], d, Join([d], parts[1..]));
      assert [parts[0]] + parts[1..] == parts;
    }
  }

  // ---------------------------------------------------------------------------
  // `s.split()` with no separator

  /** Length of the run of non-space characters `s` starts with. */
  function WordLength(s: string): (n: nat)
    ensures n <= |s|
    ensures forall i :: 0 <= i < n ==> !IsSpace(s[i])
    ensures n < |s| ==> IsSpace(s[n])
  {
    if s != [] && !IsSpace(s[0]) then 1 + WordLength(s[1..]) else 0
  }

  /** `s.split()`: the maximal runs of non-space characters, in order. */
  function SplitWords(s: string): (r: seq<string>)
    ensures forall i :: 0 <= i < |r| ==> r[i] != [] && NoSpace(r[i])
    decreases |s|
  {
    var t := TrimStart(s);
    if t == [] then []
    else
      var n := WordLength(t);
      [t[..n]] + SplitWords(t[n..])
  }

  lemma {:induction false} WordLengthOfWord(w: string, tail: string)
    requires NoSpace(w)
    requires tail == [] || IsSpace(tail[0])
    ensures WordLength(w + tail) == |w|
  {
    if w != [] {
      assert (w + tail)[1..] == w[1..] + tail;
      WordLengthOfWord(w[1..], tail);
    }
  }

  /** A leading space does not change the words. */
  lemma SplitWordsLeadingSpace(c: char, s: string)
    requires IsSpace(c)
    ensures SplitWords([c] + s) == SplitWords(s)
  {
    assert ([c] + s)[1..] == s;
    assert TrimStart([c] + s) == TrimStart(s);
  }

  /** A word followed by nothing or by white space is the first word. */
  lemma SplitWordsFirstWord(w: string, tail: string)
    requires w != [] && NoSpace(w)
    requires tail == [] || IsSpace(tail[0])
    ensures SplitWords(w + tail) == [w] + SplitWords(tail)
  {
    var s := w + tail;
    assert TrimStart(s) == s;
    WordLengthOfWord(w, tail);
    assert s[..|w|] == w && s[|w|..] == tail;
  }

  /** Joining non-empty space-free words with single spaces, then splitting, gives the words back. */
  lemma {:induction false} SplitWordsJoinRoundTrip(words: seq<string>)
    requires forall i :: 0 <= i < |words| ==> words[i] != [] && NoSpace(words[i])
    ensures SplitWords(Join(" ", words)) == words
  {
    if |words| == 1 {
      SplitWordsFirstWord(words[0], []);
      assert words[0] + [] == words[0];
    } else if |words| > 1 {
      var rest := Join(" ", words[1..]);
      assert Join(" ", words) == words[0] + ([' '] + rest);
      SplitWordsFirstWord(words[0], [' '] + rest);
      SplitWordsLeadingSpace(' ', rest);
      SplitWordsJoinRoundTrip(words[1..]);
      assert [words[0]] + words[1..] == words;
    }
  }

  /** The groups run together, as `''.join(groups)` or a loop of `+=` does; empty exactly when every group is. */
  function Concat<T>(groups: seq<seq<T>>): (r: seq<T>)
    ensures r == [] <==> forall i :: 0 <= i < |groups| ==> groups[i] == []
  {
    if groups == [] then [] else groups[0] + Concat(groups[1..])
  }

  /** Running two lists of groups together is running each together, one after the other. */
  lemma {:induction false} ConcatAppend<T>(a: seq<seq<T>>, b: seq<seq<T>>)
    ensures Concat(a + b) == Concat(a) + Concat(b)
  {
    if a == [] {
      assert a + b == b;
    } else {
      assert (a + b)[0] == a[0] && (a + b)[1..] == a[1..] + b;
      ConcatAppend(a[1..], b);
    }
  }

  // ---------------------------------------------------------------------------

  /** `a` is `b` with some elements deleted. */
  predicate IsSubsequence<T(==)>(a: seq<T>, b: seq<T>)
  {
    a == [] || (b != [] && ((a[0] == b[0] && IsSubsequence(a[1..], b[1..])) || IsSubsequence(a, b[1..])))
  }

  lemma {:induction false} SubsequenceOfSuffix<T>(a: seq<T>, b: seq<T>, n: nat)
    requires n <= |b| && IsSubsequence(a, b[n..])
    ensures IsSubsequence(a, b)
  {
    if n > 0 {
      assert b[1..][n - 1..] == b[n..];
      SubsequenceOfSuffix(a, b[1..], n - 1);
    }
  }
}
