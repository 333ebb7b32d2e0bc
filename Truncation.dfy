/**
 * `truncate_text(text, max_chars)`: split the text into sentences, strip
 * each, skip the empty ones, and keep whole sentences from the front while
 * the running count (each kept sentence counting its length plus one) leaves
 * room for the next; the first sentence that does not fit ends the scan. The
 * kept sentences are joined with the danda `।`.
 */
module Truncation {
  import opened Text

  /** The separator the kept sentences are joined with. */
  const Danda: char := '।'

  /** Characters a run of kept sentences uses: each sentence plus one separator. */
  function Cost(sentences: seq<string>): int
  {
    if sentences == [] then 0 else |sentences[0]| + 1 + Cost(sentences[1..])
  }

  /** The non-empty stripped pieces: the sentences the scan considers, in order. */
  function Sentences(pieces: seq<string>): seq<string>
  {
    if pieces == [] then []
    else
      var s := Strip(pieces[0]);
      (if s == [] then [] else [s]) + Sentences(pieces[1..])
  }

  /** What the scan keeps of `pieces` when `count` characters are already used. */
  function Kept(pieces: seq<string>, count: int, maxChars: int): seq<string>
  {
    if pieces == [] then []
    else
      var s := Strip(pieces[0]);
      if s == [] then Kept(pieces[1..], count, maxChars)
      else if count + |s| > maxChars then []
      else [s] + Kept(pieces[1..], count + |s| + 1, maxChars)
  }

  /**
   * `truncate_text(text, max_chars)`. The output never exceeds `max_chars`
   * characters, and is empty when `max_chars` is negative.
   */
  function Truncate(text: string, maxChars: int): (r: string)
    ensures |r| <= if maxChars < 0 then 0 else maxChars
  {
    var pieces := SplitSentences(text);
    var k := Kept(pieces, 0, maxChars);
    if k == [] then []
    else
      JoinLength(k);
      KeptWithinBudget(pieces, 0, maxChars);
      KeptShape(pieces, 0, maxChars);
      assert |k[0]| >= 1;
      Join([Danda], k)
  }

  /** The loop of `truncate_text`, over the pieces of `re.split`. */
  method TruncateText(text: string, maxChars: int) returns (result: string)
    ensures result == Truncate(text, maxChars)
  {
    var sentences := SplitSentences(text);
    var kept: seq<string> := [];
    var count := 0;
    var i := 0;
    while i < |sentences|
      invariant 0 <= i <= |sentences|
      invariant kept + Kept(sentences[i..], count, maxChars) == Kept(sentences, 0, maxChars)
    {
      assert sentences[i..][0] == sentences[i] && sentences[i..][1..] == sentences[i + 1..];
      var sentence := Strip(sentences[i]);
      if sentence == [] {
        i := i + 1;
        continue;
      }
      if count + |sentence| > maxChars {
        break;
      }
      kept := kept + [sentence];
      count := count + |sentence| + 1;
      i := i + 1;
    }
    assert Kept(sentences[i..], count, maxChars) == [];
    assert kept == Kept(sentences, 0, maxChars);
    result := Join([Danda], kept);
  }

  // ---------------------------------------------------------------------------
  // What is kept

  /** Each sentence fits: the count before it plus its length is at most `maxChars`. */
  predicate EachFits(k: seq<string>, count: int, maxChars: int)
  {
    forall j :: 0 <= j < |k| ==> count + Cost(k[..j]) + |k[j]| <= maxChars
  }

  /** `k` is a prefix of `s`. */
  predicate IsPrefix(k: seq<string>, s: seq<string>)
  {
    |k| <= |s| && k == s[..|k|]
  }

  /** The sentence of `s` after `k`, if any, does not fit. */
  predicate NextMisfits(k: seq<string>, s: seq<string>, count: int, maxChars: int)
  {
    |k| < |s| ==> count + Cost(k) + |s[|k|]| > maxChars
  }

  /** Every sentence is non-empty, stripped and free of sentence ends. */
  predicate WellFormed(k: seq<string>)
  {
    forall j :: 0 <= j < |k| ==> k[j] != [] && IsStripped(k[j]) && NoSentenceEnd(k[j])
  }

  lemma {:induction false} CostOfPrefix(k: seq<string>, j: nat)
    requires 0 < j <= |k|
    ensures Cost(k[..j]) == |k[0]| + 1 + Cost(k[1..][..j - 1])
  {
    assert k[..j][0] == k[0] && k[..j][1..] == k[1..][..j - 1];
  }

  lemma PrefixCons(x: string, a: seq<string>, b: seq<string>)
    requires IsPrefix(a, b)
    ensures IsPrefix([x] + a, [x] + b)
  {
    assert ([x] + b)[..|a| + 1] == [x] + b[..|a|];
  }

  /** One step of the scan over the pieces. */
  lemma KeptStep(pieces: seq<string>, count: int, maxChars: int)
    requires pieces != []
    ensures Strip(pieces[0]) == [] ==> Kept(pieces, count, maxChars) == Kept(pieces[1..], count, maxChars)
    ensures Strip(pieces[0]) != [] && count + |Strip(pieces[0])| <= maxChars ==>
              Kept(pieces, count, maxChars) == [Strip(pieces[0])] + Kept(pieces[1..], count + |Strip(pieces[0])| + 1, maxChars)
    ensures Strip(pieces[0]) != [] && count + |Strip(pieces[0])| > maxChars ==> Kept(pieces, count, maxChars) == []
  {
  }

  /** One step of `Sentences`: an empty stripped piece is dropped, any other is listed. */
  lemma SentencesStep(pieces: seq<string>)
    requires pieces != []
    ensures Strip(pieces[0]) == [] ==> Sentences(pieces) == Sentences(pieces[1..])
    ensures Strip(pieces[0]) != [] ==> Sentences(pieces) == [Strip(pieces[0])] + Sentences(pieces[1..])
  {
  }

  /** The kept sentences are a prefix of the non-empty stripped pieces. */
  lemma {:induction false} KeptIsPrefix(pieces: seq<string>, count: int, maxChars: int)
    ensures IsPrefix(Kept(pieces, count, maxChars), Sentences(pieces))
  {
    if pieces != [] {
      KeptStep(pieces, count, maxChars);
      SentencesStep(pieces);
      var p := Strip(pieces[0]);
      var s' := Sentences(pieces[1..]);
      if p == [] {
        KeptIsPrefix(pieces[1..], count, maxChars);
      } else if count + |p| <= maxChars {
        var rest := Kept(pieces[1..], count + |p| + 1, maxChars);
        KeptIsPrefix(pieces[1..], count + |p| + 1, maxChars);
        PrefixCons(p, rest, s');
      } else {
      }
    }
  }

  /** Every kept sentence fits. */
  lemma {:induction false} KeptFits(pieces: seq<string>, count: int, maxChars: int)
    ensures EachFits(Kept(pieces, count, maxChars), count, maxChars)
  {
    if pieces != [] {
      KeptStep(pieces, count, maxChars);
      var p := Strip(pieces[0]);
      if p == [] {
        KeptFits(pieces[1..], count, maxChars);
      } else if count + |p| <= maxChars {
        var rest := Kept(pieces[1..], count + |p| + 1, maxChars);
        KeptFits(pieces[1..], count + |p| + 1, maxChars);
        EachFitsCons(p, rest, count, maxChars);
      } else {
      }
    }
  }

  /** A sentence that fits, ahead of a run that fits after it, gives a run that fits. */
  lemma EachFitsCons(p: string, rest: seq<string>, count: int, maxChars: int)
    requires count + |p| <= maxChars
    requires EachFits(rest, count + |p| + 1, maxChars)
    ensures EachFits([p] + rest, count, maxChars)
  {
    var k := [p] + rest;
    assert k[1..] == rest;
    forall j | 0 <= j < |k|
      ensures count + Cost(k[..j]) + |k[j]| <= maxChars
    {
      if j > 0 {
        CostOfPrefix(k, j);
        assert k[j] == rest[j - 1];
        assert count + |p| + 1 + Cost(rest[..j - 1]) + |rest[j - 1]| <= maxChars;
      } else {
        assert k[..j] == [];
      }
    }
  }

  /** The scan stops only at a sentence that does not fit. */
  lemma {:induction false} KeptStopsAtMisfit(pieces: seq<string>, count: int, maxChars: int)
    ensures NextMisfits(Kept(pieces, count, maxChars), Sentences(pieces), count, maxChars)
  {
    if pieces != [] {
      KeptStep(pieces, count, maxChars);
      SentencesStep(pieces);
      var p := Strip(pieces[0]);
      var s' := Sentences(pieces[1..]);
      if p == [] {
        KeptStopsAtMisfit(pieces[1..], count, maxChars);
      } else if count + |p| <= maxChars {
        var rest := Kept(pieces[1..], count + |p| + 1, maxChars);
        KeptStopsAtMisfit(pieces[1..], count + |p| + 1, maxChars);
        assert ([p] + rest)[1..] == rest;
      } else {
      }
    }
  }

  /** Every kept sentence is non-empty, stripped and free of sentence ends. */
  lemma {:induction false} KeptShape(pieces: seq<string>, count: int, maxChars: int)
    requires forall i :: 0 <= i < |pieces| ==> NoSentenceEnd(pieces[i])
    ensures WellFormed(Kept(pieces, count, maxChars))
  {
    if pieces != [] {
      KeptStep(pieces, count, maxChars);
      var p := Strip(pieces[0]);
      StripNoSentenceEnd(pieces[0]);
      StripIsStripped(pieces[0]);
      if p == [] {
        KeptShape(pieces[1..], count, maxChars);
      } else if count + |p| <= maxChars {
        var rest := Kept(pieces[1..], count + |p| + 1, maxChars);
        KeptShape(pieces[1..], count + |p| + 1, maxChars);
      } else {
      }
    }
  }

  /** Scanning the kept sentences again keeps all of them. */
  lemma {:induction false} KeptIdempotent(pieces: seq<string>, count: int, maxChars: int)
    ensures Kept(Kept(pieces, count, maxChars), count, maxChars) == Kept(pieces, count, maxChars)
  {
    if pieces != [] {
      KeptStep(pieces, count, maxChars);
      var p := Strip(pieces[0]);
      if p == [] {
        KeptIdempotent(pieces[1..], count, maxChars);
      } else if count + |p| <= maxChars {
        var rest := Kept(pieces[1..], count + |p| + 1, maxChars);
        KeptIdempotent(pieces[1..], count + |p| + 1, maxChars);
        StripIsStripped(pieces[0]);
        KeptKeepsStripped(p, rest, count, maxChars);
      } else {
      }
    }
  }

  /** A stripped sentence that fits is kept as it is, and the scan goes on after it. */
  lemma KeptKeepsStripped(p: string, rest: seq<string>, count: int, maxChars: int)
    requires p != [] && IsStripped(p) && count + |p| <= maxChars
    ensures Kept([p] + rest, count, maxChars) == [p] + Kept(rest, count + |p| + 1, maxChars)
  {
    StripStripped(p);
    var k := [p] + rest;
    assert k[0] == p && k[1..] == rest;
  }

  /** The joined sentences use one character less than their cost. */
  lemma {:induction false} JoinLength(k: seq<string>)
    requires k != []
    ensures |Join([Danda], k)| == Cost(k) - 1
  {
    if |k| > 1 {
      JoinLength(k[1..]);
    }
  }

  lemma {:induction false} KeptWithinBudget(pieces: seq<string>, count: int, maxChars: int)
    ensures Kept(pieces, count, maxChars) != [] ==> count + Cost(Kept(pieces, count, maxChars)) - 1 <= maxChars
  {
    if pieces != [] {
      KeptStep(pieces, count, maxChars);
      var p := Strip(pieces[0]);
      if p == [] {
        KeptWithinBudget(pieces[1..], count, maxChars);
      } else if count + |p| <= maxChars {
        var rest := Kept(pieces[1..], count + |p| + 1, maxChars);
        KeptWithinBudget(pieces[1..], count + |p| + 1, maxChars);
        assert ([p] + rest)[1..] == rest;
      } else {
      }
    }
  }

  // ---------------------------------------------------------------------------
  // Properties of `truncate_text`

  /**
   * The output is the danda-join of the longest prefix of the text's non-empty
   * stripped sentences in which every sentence fits; the first sentence that
   * does not fit is left out whole, and so is everything after it.
   */
  lemma TruncateKeepsFittingPrefix(text: string, maxChars: int)
    ensures Truncate(text, maxChars) == Join([Danda], Kept(SplitSentences(text), 0, maxChars))
    ensures IsPrefix(Kept(SplitSentences(text), 0, maxChars), Sentences(SplitSentences(text)))
    ensures EachFits(Kept(SplitSentences(text), 0, maxChars), 0, maxChars)
    ensures NextMisfits(Kept(SplitSentences(text), 0, maxChars), Sentences(SplitSentences(text)), 0, maxChars)
  {
    KeptIsPrefix(SplitSentences(text), 0, maxChars);
    KeptFits(SplitSentences(text), 0, maxChars);
    KeptStopsAtMisfit(SplitSentences(text), 0, maxChars);
  }

  /** The output is empty exactly when the text has no sentence or its first sentence is already too long. */
  lemma TruncateEmpty(text: string, maxChars: int)
    ensures Truncate(text, maxChars) == [] <==>
            Sentences(SplitSentences(text)) == [] || |Sentences(SplitSentences(text))[0]| > maxChars
  {
    var pieces := SplitSentences(text);
    var k := Kept(pieces, 0, maxChars);
    var s := Sentences(pieces);
    KeptIsPrefix(pieces, 0, maxChars);
    KeptFits(pieces, 0, maxChars);
    KeptStopsAtMisfit(pieces, 0, maxChars);
    KeptShape(pieces, 0, maxChars);
    if k != [] {
      JoinLength(k);
      assert k[..0] == [];
      assert |k[0]| <= maxChars;
      assert k[0] == s[0];
    } else if s != [] {
      assert Cost(k) == 0;
    }
  }

  /** Truncating an already truncated text changes nothing. */
  lemma TruncateIdempotent(text: string, maxChars: int)
    ensures Truncate(Truncate(text, maxChars), maxChars) == Truncate(text, maxChars)
  {
    var pieces := SplitSentences(text);
    var k := Kept(pieces, 0, maxChars);
    KeptShape(pieces, 0, maxChars);
    KeptIdempotent(pieces, 0, maxChars);
    if k == [] {
      assert Truncate(text, maxChars) == [];
      assert SplitSentences([]) == [[]];
      assert Strip([]) == [] && [Strip([])][1..] == [];
    } else {
      SplitJoinRoundTrip(Danda, k);
    }
  }

  /** A single stripped sentence within the budget comes back unchanged. */
  lemma TruncateShortSentence(text: string, maxChars: int)
    requires text != [] && IsStripped(text) && NoSentenceEnd(text) && |text| <= maxChars
    ensures Truncate(text, maxChars) == text
  {
    SplitWithoutSentenceEnd(text);
    StripStripped(text);
    assert [text][1..] == [];
    assert Kept([text], 0, maxChars) == [text];
  }
}
