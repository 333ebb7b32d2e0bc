/**
 * `preprocess(text, remove_stops)`: drop foreign-script text, tokenize,
 * flatten one level when some token is a list, optionally drop stop words,
 * and join with single spaces; and the term sets the retriever derives from
 * it with `set(....lower().split())`.
 */
module Normalizer {
  import opened Text
  import opened Collaborators

  /** Some element of the token list is itself a list. */
  predicate HasGroup(tokens: seq<Token>)
  {
    exists i :: 0 <= i < |tokens| && tokens[i].Group?
  }

  /** The one-character strings that iterating over `w` yields. */
  function Chars(w: string): (r: seq<string>)
    ensures |r| == |w|
    ensures forall i :: 0 <= i < |r| ==> r[i] == [w[i]]
  {
    if w == [] then [] else [[w[0]]] + Chars(w[1..])
  }

  /** What `for item in sublist` yields: a list gives its items, a string its characters. */
  function Elements(t: Token): seq<string>
  {
    match t
    case Group(items) => items
    case Word(w) => Chars(w)
  }

  /** `[item for sublist in tokens for item in sublist]`. */
  function FlattenAll(tokens: seq<Token>): seq<string>
  {
    if tokens == [] then [] else Elements(tokens[0]) + FlattenAll(tokens[1..])
  }

  /** The strings of a token list that holds no list. */
  function Texts(tokens: seq<Token>): (r: seq<string>)
    requires !HasGroup(tokens)
    ensures |r| == |tokens|
    ensures forall i :: 0 <= i < |r| ==> tokens[i] == Word(r[i])
  {
    if tokens == [] then []
    else
      assert !HasGroup(tokens[1..]) by {
        forall i | 0 <= i < |tokens[1..]| ensures !tokens[1..][i].Group? {
          assert tokens[1..][i] == tokens[i + 1];
        }
      }
      [tokens[0].text] + Texts(tokens[1..])
  }

  /** The text a token stands for: a string itself, a list its items run together. */
  function TokenText(t: Token): string
  {
    match t
    case Word(w) => w
    case Group(items) => Concat(items)
  }

  /** The texts of all tokens, run together. */
  function AllText(tokens: seq<Token>): string
  {
    if tokens == [] then [] else TokenText(tokens[0]) + AllText(tokens[1..])
  }

  /**
   * Line 32: flatten one level only when some element is a list. Whichever
   * way it goes, no character is lost, added or moved: the pieces run
   * together are the tokens' text.
   */
  function Flatten(tokens: seq<Token>): (r: seq<string>)
    ensures Concat(r) == AllText(tokens)
    ensures !HasGroup(tokens) ==> |r| == |tokens|
  {
    if HasGroup(tokens) then
      FlattenAllText(tokens);
      FlattenAll(tokens)
    else
      TextsText(tokens);
      Texts(tokens)
  }

  /** Iterating over a string and running the characters together gives the string back. */
  lemma {:induction false} ConcatChars(w: string)
    ensures Concat(Chars(w)) == w
  {
    if w != [] {
      assert Chars(w)[1..] == Chars(w[1..]);
      ConcatChars(w[1..]);
      assert [w[0]] + w[1..] == w;
    }
  }

  lemma {:induction false} FlattenAllText(tokens: seq<Token>)
    ensures Concat(FlattenAll(tokens)) == AllText(tokens)
  {
    if tokens != [] {
      ConcatAppend(Elements(tokens[0]), FlattenAll(tokens[1..]));
      if tokens[0].Word? {
        ConcatChars(tokens[0].text);
      }
      FlattenAllText(tokens[1..]);
    }
  }

  lemma {:induction false} TextsText(tokens: seq<Token>)
    requires !HasGroup(tokens)
    ensures Concat(Texts(tokens)) == AllText(tokens)
  {
    if tokens != [] {
      assert !HasGroup(tokens[1..]) by {
        forall i | 0 <= i < |tokens[1..]| ensures !tokens[1..][i].Group? {
          assert tokens[1..][i] == tokens[i + 1];
        }
      }
      assert Texts(tokens)[1..] == Texts(tokens[1..]);
      TextsText(tokens[1..]);
    }
  }

  /** `[token for token in tokens if token not in stopwords]`. */
  function RemoveStopwords(tokens: seq<string>, stopwords: set<string>): (r: seq<string>)
    ensures forall t :: t in r <==> t in tokens && t !in stopwords
    ensures forall t :: multiset(r)[t] == if t in stopwords then 0 else multiset(tokens)[t]
    ensures IsSubsequence(r, tokens)
  {
    assert tokens != [] ==> tokens == [tokens[0]] + tokens[1..];
    if tokens == [] then []
    else if tokens[0] in stopwords then
      SubsequenceOfSuffix(RemoveStopwords(tokens[1..], stopwords), tokens, 1);
      RemoveStopwords(tokens[1..], stopwords)
    else
      assert ([tokens[0]] + RemoveStopwords(tokens[1..], stopwords))[1..] == RemoveStopwords(tokens[1..], stopwords);
      [tokens[0]] + RemoveStopwords(tokens[1..], stopwords)
  }

  /** The token list `preprocess` joins. */
  function Tokens(env: Env, text: string, removeStops: bool): seq<string>
  {
    var tokens := Flatten(env.tokenize(env.removeForeign(text)));
    if removeStops then RemoveStopwords(tokens, env.stopwords) else tokens
  }

  /** The tokenizer yields non-empty tokens without white space. */
  predicate WellTokenized(env: Env, text: string, removeStops: bool)
  {
    forall i :: 0 <= i < |Tokens(env, text, removeStops)| ==>
      Tokens(env, text, removeStops)[i] != [] && NoSpace(Tokens(env, text, removeStops)[i])
  }

  /** No word of `s` is a stop word. */
  predicate FreeOfStopwords(env: Env, s: string)
  {
    forall w :: w in SplitWords(s) ==> w !in env.stopwords
  }

  /**
   * `preprocess(text, remove_stops)`. With well-formed tokens, splitting the
   * result gives the tokens back in order, and with `remove_stops` none of
   * its words is a stop word.
   */
  function Preprocess(env: Env, text: string, removeStops: bool): (r: string)
    ensures WellTokenized(env, text, removeStops) ==> SplitWords(r) == Tokens(env, text, removeStops)
    ensures WellTokenized(env, text, removeStops) && removeStops ==> FreeOfStopwords(env, r)
  {
    var tokens := Tokens(env, text, removeStops);
    assert WellTokenized(env, text, removeStops) ==> SplitWords(Join(" ", tokens)) == tokens by {
      if WellTokenized(env, text, removeStops) {
        SplitWordsJoinRoundTrip(tokens);
      }
    }
    Join(" ", tokens)
  }

  /** `set(preprocess(text, remove_stops).lower().split())`: non-empty words without white space. */
  function Terms(env: Env, text: string, removeStops: bool): (r: set<string>)
    ensures forall w :: w in r ==> w != [] && NoSpace(w)
  {
    set w | w in SplitWords(env.lower(Preprocess(env, text, removeStops)))
  }

  /** `fuzz.partial_ratio(query.lower(), name.lower()) / 100`. */
  function NameSimilarity(env: Env, query: string, name: string): (r: real)
    ensures 0.0 <= r <= 1.0
  {
    (env.partialRatio(env.lower(query), env.lower(name)) as real) / 100.0
  }

  // ---------------------------------------------------------------------------

  /** A list of strings is passed through unchanged. */
  lemma FlattenWords(words: seq<string>)
    ensures Flatten(seq(|words|, i requires 0 <= i < |words| => Word(words[i]))) == words
  {
    var tokens := seq(|words|, i requires 0 <= i < |words| => Word(words[i]));
    assert !HasGroup(tokens);
    var r := Texts(tokens);
    assert forall i :: 0 <= i < |r| ==> r[i] == tokens[i].text == words[i];
  }

  /** Once a list appears, the strings around it are split into their characters. */
  lemma FlattenMixed(w: string, items: seq<string>)
    ensures Flatten([Word(w), Group(items)]) == Chars(w) + items
  {
    var tokens := [Word(w), Group(items)];
    assert tokens[1].Group?;
    assert tokens[1..] == [Group(items)] && tokens[1..][1..] == [];
    assert FlattenAll(tokens[1..]) == items + FlattenAll([]);
    assert items + [] == items;
  }

  /** A flattened list of lists keeps every item, in order. */
  lemma {:induction false} FlattenGroups(groups: seq<seq<string>>)
    requires groups != []
    ensures Flatten(seq(|groups|, i requires 0 <= i < |groups| => Group(groups[i]))) == Concat(groups)
  {
    var tokens := seq(|groups|, i requires 0 <= i < |groups| => Group(groups[i]));
    assert tokens[0].Group?;
    FlattenAllGroups(groups);
  }

  lemma {:induction false} FlattenAllGroups(groups: seq<seq<string>>)
    ensures FlattenAll(seq(|groups|, i requires 0 <= i < |groups| => Group(groups[i]))) == Concat(groups)
  {
    if groups != [] {
      var tokens := seq(|groups|, i requires 0 <= i < |groups| => Group(groups[i]));
      assert tokens[1..] == seq(|groups[1..]|, i requires 0 <= i < |groups[1..]| => Group(groups[1..][i]));
      FlattenAllGroups(groups[1..]);
    }
  }
}
