/**
 * `clean_wiki_text`: `re.sub(r'\[\d+\]', '', text)`, which deletes every
 * citation marker such as `[12]` in one left-to-right pass. Python's regular
 * expression engine tries each position in turn; a match removes the marker
 * and the scan resumes after it, otherwise the character is kept.
 */
module Citations {
  import opened Text

  /** The decimal digits `\d` matches in this model: ASCII and Devanagari. */
  predicate IsDigit(c: char)
  {
    '0' <= c <= '9' || '०' <= c <= '९'
  }

  /** A citation marker: `[`, one or more digits, `]`. */
  predicate IsCitation(t: string)
  {
    |t| >= 3 && t[0] == '[' && t[|t| - 1] == ']' && forall i :: 1 <= i < |t| - 1 ==> IsDigit(t[i])
  }

  /** Number of digits `s` starts with. */
  function DigitRun(s: string): (n: nat)
    ensures n <= |s|
    ensures forall i :: 0 <= i < n ==> IsDigit(s[i])
    ensures n < |s| ==> !IsDigit(s[n])
  {
    if s != [] && IsDigit(s[0]) then 1 + DigitRun(s[1..]) else 0
  }

  /** Length of the citation marker at the start of `s`, or 0 when there is none. */
  function CitationLength(s: string): (n: nat)
    ensures n <= |s|
    ensures n > 0 ==> IsCitation(s[..n])
  {
    if s == [] || s[0] != '[' then 0
    else
      var d := DigitRun(s[1..]);
      if d >= 1 && d + 1 < |s| && s[d + 1] == ']' then d + 2 else 0
  }

  /** A citation marker at the start of `s` is exactly the one the scanner finds (the `\d+` run cannot stop early). */
  lemma CitationPrefixUnique(s: string, k: nat)
    requires k <= |s| && IsCitation(s[..k])
    ensures CitationLength(s) == k
  {
    var d := DigitRun(s[1..]);
    assert s[..k][k - 1] == s[k - 1];
    forall i | 0 <= i < k - 2
      ensures IsDigit(s[1..][i])
    {
      assert s[1..][i] == s[..k][i + 1];
    }
  }

  /** Some position of `s` starts a citation marker. */
  predicate HasCitation(s: string)
  {
    exists i :: 0 <= i < |s| && CitationLength(s[i..]) > 0
  }

  /** `re.sub(r'\[\d+\]', '', s)`; the result only ever drops characters. */
  function CleanWikiText(s: string): (r: string)
    ensures |r| <= |s|
    ensures IsSubsequence(r, s)
  {
    if s == [] then []
    else
      var n := CitationLength(s);
      if n > 0 then
        SubsequenceOfSuffix(CleanWikiText(s[n..]), s, n);
        CleanWikiText(s[n..])
      else
        assert ([s[0]] + CleanWikiText(s[1..]))[1..] == CleanWikiText(s[1..]);
        [s[0]] + CleanWikiText(s[1..])
  }

  /** Text with no citation marker comes back unchanged. */
  lemma {:induction false} CleanWithoutCitation(s: string)
    requires !HasCitation(s)
    ensures CleanWikiText(s) == s
  {
    if s != [] {
      assert s[0..] == s;
      forall i | 0 <= i < |s[1..]|
        ensures CitationLength(s[1..][i..]) == 0
      {
        assert s[1..][i..] == s[i + 1..];
      }
      CleanWithoutCitation(s[1..]);
      assert [s[0]] + s[1..] == s;
    }
  }

  /** Text with a citation marker comes back strictly shorter. */
  lemma {:induction false} CleanWithCitation(s: string)
    requires HasCitation(s)
    ensures |CleanWikiText(s)| < |s|
  {
    var i :| 0 <= i < |s| && CitationLength(s[i..]) > 0;
    if CitationLength(s) == 0 {
      assert i != 0 by { assert s[0..] == s; }
      assert s[1..][i - 1..] == s[i..];
      CleanWithCitation(s[1..]);
    }
  }

  /** The text is left as it is exactly when it holds no citation marker. */
  lemma CleanUnchanged(s: string)
    ensures CleanWikiText(s) == s <==> !HasCitation(s)
  {
    if HasCitation(s) {
      CleanWithCitation(s);
    } else {
      CleanWithoutCitation(s);
    }
  }

  lemma BracketNotInCitation(t: string, j: nat)
    requires IsCitation(t) && 1 <= j < |t|
    ensures t[j] != '['
  {
  }

  /** A citation marker at the front is dropped and the scan resumes after it. */
  lemma CleanLeadingCitation(c: string, rest: string)
    requires IsCitation(c)
    ensures CleanWikiText(c + rest) == CleanWikiText(rest)
  {
    var s := c + rest;
    assert s[..|c|] == c;
    CitationPrefixUnique(s, |c|);
    assert s[|c|..] == rest;
  }

  /** A citation marker cannot start inside citation-free text followed by a `[`. */
  lemma NoCitationBeforeBracket(p: string, tail: string, i: nat)
    requires !HasCitation(p) && i < |p|
    requires tail != [] && tail[0] == '['
    ensures CitationLength((p + tail)[i..]) == 0
  {
    var s := (p + tail)[i..];
    var n := CitationLength(s);
    if n > 0 {
      if n <= |p| - i {
        assert s[..n] == p[i..][..n];
        CitationPrefixUnique(p[i..], n);
        assert false;
      } else {
        BracketNotInCitation(s[..n], |p| - i);
        assert false;
      }
    }
  }

  /**
   * Citation-free text, a citation marker, then anything: the text is kept,
   * the marker is dropped, and the scan carries on after it.
   */
  lemma {:induction false} CleanDropsCitation(p: string, c: string, rest: string)
    requires !HasCitation(p) && IsCitation(c)
    ensures CleanWikiText(p + c + rest) == p + CleanWikiText(rest)
  {
    var s := p + c + rest;
    if p == [] {
      assert s == c + rest;
      CleanLeadingCitation(c, rest);
    } else {
      var tail := p[1..] + c + rest;
      assert s == [p[0]] + tail;
      assert s[1..] == tail;
      NoCitationBeforeBracket(p, c + rest, 0);
      assert (p + (c + rest))[0..] == s;
      KeepFirst(s);
      NoCitationInTail(p);
      CleanDropsCitation(p[1..], c, rest);
      ConsAppend(p, CleanWikiText(rest));
    }
  }

  lemma ConsAppend(p: string, r: string)
    requires p != []
    ensures [p[0]] + (p[1..] + r) == p + r
  {
    assert [p[0]] + p[1..] == p;
  }

  lemma NoCitationInTail(p: string)
    requires p != [] && !HasCitation(p)
    ensures !HasCitation(p[1..])
  {
    forall i | 0 <= i < |p[1..]|
      ensures CitationLength(p[1..][i..]) == 0
    {
      assert p[1..][i..] == p[i + 1..];
    }
  }

  lemma KeepFirst(s: string)
    requires s != [] && CitationLength(s) == 0
    ensures CleanWikiText(s) == [s[0]] + CleanWikiText(s[1..])
  {
  }

  /** The pass is single: removing `[2]` from `[1[2]]` leaves a new marker `[1]`. */
  lemma CleanIsSinglePass()
    ensures CleanWikiText("[1[2]]") == "[1]"
    ensures HasCitation(CleanWikiText("[1[2]]"))
  {
    var s := "[1[2]]";
    assert CitationLength(s) == 0 by { assert DigitRun(s[1..]) == 1; }
    assert s[1..] == "1[2]]";
    assert CitationLength("1[2]]") == 0;
    assert "1[2]]"[1..] == "[2]]";
    assert DigitRun("[2]]"[1..]) == 1 by { assert "[2]]"[1..] == "2]]"; assert "2]]"[1..] == "]]"; }
    assert CitationLength("[2]]") == 3;
    assert "[2]]"[3..] == "]";
    assert CitationLength("]") == 0;
    assert "]"[1..] == [];
    assert CleanWikiText("]") == "]";
    assert CleanWikiText("[2]]") == "]";
    assert CleanWikiText("1[2]]") == "1]";
    var r := "[1]";
    assert CitationLength(r[0..]) == 3 by {
      assert r[0..] == r;
      assert r[1..] == "1]" && "1]"[1..] == "]";
      assert DigitRun(r[1..]) == 1;
    }
  }
}
