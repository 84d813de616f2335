/**
  The bad-word filter: at every step the logits of the tokens that would complete a bad word
  become minus infinity.  One-token words are in a bias that is made at the first call and
  kept; longer words are matched against the past at every call.
 */
module BadWords {
  import opened Basics

  type Token = int
  type Word = seq<Token>

  /** A floating-point number, without rounding. */
  datatype Logit = NegInf | Finite(value: real) | PosInf | NaN

  function Plus(a: Logit, b: Logit): Logit {
    match (a, b)
    case (NaN, _) => NaN
    case (_, NaN) => NaN
    case (NegInf, PosInf) => NaN
    case (PosInf, NegInf) => NaN
    case (NegInf, _) => NegInf
    case (_, NegInf) => NegInf
    case (PosInf, _) => PosInf
    case (_, PosInf) => PosInf
    case (Finite(x), Finite(y)) => Finite(x + y)
  }

  const SMALLEST := NegInf
  const NEUTRAL := Finite(0.0)

  // ----- what the filter is for ----------------------------------------------------

  predicate IsSuffix(w: Word, s: seq<Token>) {
    |w| <= |s| && s[|s| - |w|..] == w
  }

  /** Picking the token now would complete a bad word. */
  ghost predicate Banned(words: seq<Word>, past: seq<Token>, token: Token) {
    exists i :: 0 <= i < |words| && words[i] != [] && IsSuffix(words[i], past + [token])
  }

  /** The processed logit of a token. */
  ghost function Masked(words: seq<Word>, past: seq<Token>, token: Token, logit: Logit): Logit {
    if Banned(words, past, token) then Plus(logit, SMALLEST) else logit
  }

  predicate InVocabulary(words: seq<Word>, size: nat) {
    forall i, j :: 0 <= i < |words| && 0 <= j < |words[i]| ==> 0 <= words[i][j] < size
  }

  predicate HasEmptyWord(words: seq<Word>) {
    exists i :: 0 <= i < |words| && words[i] == []
  }

  // ----- the biases ----------------------------------------------------------------

  /** One of the first n words is the one token. */
  ghost predicate BannedAlone(words: seq<Word>, n: nat, token: Token)
    requires n <= |words|
  {
    exists i :: 0 <= i < n && words[i] == [token]
  }

  /** One of the first n words has more tokens and is completed by the token. */
  ghost predicate Completes(words: seq<Word>, n: nat, past: seq<Token>, token: Token)
    requires n <= |words|
  {
    exists i :: 0 <= i < n && |words[i]| > 1 && IsSuffix(words[i], past + [token])
  }

  /** A bias: minus infinity for some tokens, zero for the others. */
  ghost predicate IsBias(bias: seq<Logit>, size: nat, banned: Token -> bool) {
    |bias| == size && forall t :: 0 <= t < size ==> bias[t] == if banned(t) then SMALLEST else NEUTRAL
  }

  lemma BannedByBias(words: seq<Word>, past: seq<Token>, token: Token)
    ensures Banned(words, past, token) <==>
              BannedAlone(words, |words|, token) || Completes(words, |words|, past, token)
  {
    if Banned(words, past, token) {
      var i :| 0 <= i < |words| && words[i] != [] && IsSuffix(words[i], past + [token]);
      if |words[i]| == 1 {
        assert words[i] == [token];
      }
    }
    if BannedAlone(words, |words|, token) {
      var i :| 0 <= i < |words| && words[i] == [token];
      assert IsSuffix(words[i], past + [token]);
    }
  }

  /** Comparing the prefix of a word with the end of the past is what completing means. */
  lemma PrefixMatches(w: Word, past: seq<Token>, token: Token)
    requires |w| > 1
    ensures IsSuffix(w, past + [token]) <==>
              && |w| <= |past| + 1
              && past[|past| - (|w| - 1)..] == w[..|w| - 1]
              && w[|w| - 1] == token
  {
    var s := past + [token];
    if |w| <= |s| {
      var tail := s[|s| - |w|..];
      assert tail == past[|past| - (|w| - 1)..] + [token];
      assert w == w[..|w| - 1] + [w[|w| - 1]];
    }
  }

  class NoBadWordsLogitsProcessor {
    const badWords: seq<Word>
    var wordBias: Option<seq<Logit>>

    constructor (words: seq<Word>)
      ensures badWords == words && wordBias == None
    {
      badWords, wordBias := words, None;
    }

    /** A bias that was made is right for its vocabulary. */
    ghost predicate Valid()
      reads this
    {
      wordBias.Some? ==>
        && InVocabulary(badWords, |wordBias.value|)
        && IsBias(wordBias.value, |wordBias.value|, t => BannedAlone(badWords, |badWords|, t))
    }

    /** Raises when a token of a bad word is not in the vocabulary. */
    method CheckTokenIdsBounds(size: nat) returns (ok: bool)
      ensures ok <==> InVocabulary(badWords, size)
    {
      var invalid: seq<Token> := [];
      for i := 0 to |badWords|
        invariant invalid == [] <==> InVocabulary(badWords[..i], size)
      {
        for j := 0 to |badWords[i]|
          invariant invalid == [] <==>
                      InVocabulary(badWords[..i], size) && forall k :: 0 <= k < j ==> 0 <= badWords[i][k] < size
        {
          if badWords[i][j] < 0 || badWords[i][j] >= size {
            invalid := invalid + [badWords[i][j]];
          }
        }
        assert badWords[..i + 1] == badWords[..i] + [badWords[i]];
      }
      assert badWords[..|badWords|] == badWords;
      ok := invalid == [];
    }

    method InitWordBias(size: nat) returns (ok: bool)
      modifies this
      ensures ok <==> InVocabulary(badWords, size)
      ensures if ok then wordBias.Some? && |wordBias.value| == size && Valid() else wordBias == old(wordBias)
    {
      ok := CheckTokenIdsBounds(size);
      if !ok {
        return;
      }
      var bias := seq(size, _ => NEUTRAL);
      for i := 0 to |badWords|
        invariant IsBias(bias, size, t => BannedAlone(badWords, i, t))
      {
        if |badWords[i]| == 1 {
          var token := badWords[i][0];
          assert 0 <= token < size;
          bias := bias[token := SMALLEST];
          assert badWords[i] == [token];
        }
        forall t | 0 <= t < size
          ensures BannedAlone(badWords, i + 1, t) <==> BannedAlone(badWords, i, t) || badWords[i] == [t]
        {
        }
      }
      wordBias := Some(bias);
    }

    /** The bias for the words of more than one token; None is the IndexError for the last
        token of an empty word. */
    method LastTokenBias(past: seq<Token>, size: nat) returns (r: Option<seq<Logit>>)
      requires InVocabulary(badWords, size)
      ensures r.None? <==> HasEmptyWord(badWords)
      ensures r.Some? ==> IsBias(r.value, size, t => Completes(badWords, |badWords|, past, t))
    {
      var bias := seq(size, _ => NEUTRAL);
      for i := 0 to |badWords|
        invariant IsBias(bias, size, t => Completes(badWords, i, past, t))
        invariant forall j :: 0 <= j < i ==> badWords[j] != []
      {
        var word := badWords[i];
        if |word| == 1 {
          ShortWordMore(badWords, i, past, size);
          continue;
        }
        if |word| > |past| + 1 {
          ShortWordMore(badWords, i, past, size);
          continue;
        }
        if word == [] {
          return None;
        }
        var prefixLength := |word| - 1;
        var lastTokenId := word[prefixLength];
        assert 0 <= badWords[i][prefixLength] < size;
        var isMatch := past[|past| - prefixLength..] == word[..prefixLength];
        forall t | 0 <= t < size {
          LongWordMore(badWords, i, past, prefixLength, isMatch, t);
        }
        bias := bias[lastTokenId := Plus(bias[lastTokenId], if isMatch then SMALLEST else NEUTRAL)];
      }
      r := Some(bias);
    }

    /** The filter.  None stands for the exceptions: a bad word out of the vocabulary, an empty
        bad word, or logits of another size than at the first call. */
    method Call(past: seq<Token>, logits: seq<Logit>) returns (r: Option<seq<Logit>>)
      requires Valid()
      modifies this
      ensures Valid() && (old(wordBias).Some? ==> wordBias == old(wordBias))
      ensures wordBias.Some? ==> old(wordBias).Some? || |wordBias.value| == |logits|
      ensures r.None? <==>
                || HasEmptyWord(badWords)
                || (if old(wordBias).None? then !InVocabulary(badWords, |logits|) else |old(wordBias).value| != |logits|)
      ensures r.Some? ==>
                && wordBias.Some? && |r.value| == |logits|
                && forall t :: 0 <= t < |logits| ==> r.value[t] == Masked(badWords, past, t, logits[t])
    {
      if wordBias.None? {
        var ok := InitWordBias(|logits|);
        if !ok {
          return None;
        }
      }
      var size := |wordBias.value|;
      if size != |logits| {
        return None;
      }
      var last := LastTokenBias(past, size);
      if last.None? {
        return None;
      }
      var bias, bias' := wordBias.value, last.value;
      r := Some(seq(size, t requires 0 <= t < size => Plus(Plus(logits[t], bias[t]), bias'[t])));
      forall t | 0 <= t < size ensures r.value[t] == Masked(badWords, past, t, logits[t]) {
        BannedByBias(badWords, past, t);
      }
    }
  }

  /** A word of one token, or one that is too long, completes nothing. */
  lemma ShortWordMore(words: seq<Word>, i: nat, past: seq<Token>, size: nat)
    requires i < |words| && (|words[i]| == 1 || |words[i]| > |past| + 1)
    ensures forall t :: 0 <= t < size ==> (Completes(words, i + 1, past, t) <==> Completes(words, i, past, t))
  {
    forall t | 0 <= t < size ensures Completes(words, i + 1, past, t) <==> Completes(words, i, past, t) {
      OneWordMoreAt(words, i, past, t);
    }
  }

  lemma OneWordMoreAt(words: seq<Word>, i: nat, past: seq<Token>, t: Token)
    requires i < |words|
    ensures Completes(words, i + 1, past, t) <==>
              Completes(words, i, past, t) || (|words[i]| > 1 && IsSuffix(words[i], past + [t]))
  {
  }

  /** A longer word bans its last token when the comparison of prefixes succeeds. */
  lemma LongWordMore(words: seq<Word>, i: nat, past: seq<Token>, prefixLength: nat, isMatch: bool, t: Token)
    requires i < |words| && 0 < prefixLength == |words[i]| - 1 <= |past|
    requires isMatch == (past[|past| - prefixLength..] == words[i][..prefixLength])
    ensures Completes(words, i + 1, past, t) <==>
              Completes(words, i, past, t) || (isMatch && t == words[i][prefixLength])
  {
    OneWordMoreAt(words, i, past, t);
    PrefixMatches(words[i], past, t);
  }

  // ----- whole runs ----------------------------------------------------------------

  predicate AboveNegInf(logit: Logit) {
    logit.Finite? || logit.PosInf?
  }

  /** The word is a contiguous block of the tokens. */
  ghost predicate Occurs(w: Word, tokens: seq<Token>) {
    exists p :: OccursAt(w, tokens, p)
  }

  ghost predicate OccursAt(w: Word, tokens: seq<Token>, p: int) {
    0 <= p <= |tokens| - |w| && tokens[p..p + |w|] == w
  }

  ghost predicate HasBadWord(words: seq<Word>, tokens: seq<Token>) {
    exists i :: 0 <= i < |words| && words[i] != [] && Occurs(words[i], tokens)
  }

  /** At some step the token would complete a bad word. */
  ghost predicate EverBanned(words: seq<Word>, tokens: seq<Token>) {
    exists k :: 0 <= k < |tokens| && Banned(words, tokens[..k], tokens[k])
  }

  /** A run never picks a banned token exactly when no bad word is in what it produced. */
  lemma BannedIffBadWord(words: seq<Word>, tokens: seq<Token>)
    ensures EverBanned(words, tokens) <==> HasBadWord(words, tokens)
  {
    if EverBanned(words, tokens) {
      var k :| 0 <= k < |tokens| && Banned(words, tokens[..k], tokens[k]);
      BannedOccurs(words, tokens, k);
    }
    if HasBadWord(words, tokens) {
      var i :| 0 <= i < |words| && words[i] != [] && Occurs(words[i], tokens);
      var p :| OccursAt(words[i], tokens, p);
      OccurringIsBanned(words, tokens, i, p);
    }
  }

  lemma BannedOccurs(words: seq<Word>, tokens: seq<Token>, k: nat)
    requires k < |tokens| && Banned(words, tokens[..k], tokens[k])
    ensures HasBadWord(words, tokens)
  {
    var i :| 0 <= i < |words| && words[i] != [] && IsSuffix(words[i], tokens[..k] + [tokens[k]]);
    SuffixOccurs(words[i], tokens, k);
  }

  lemma OccurringIsBanned(words: seq<Word>, tokens: seq<Token>, i: nat, p: int)
    requires i < |words| && words[i] != [] && OccursAt(words[i], tokens, p)
    ensures EverBanned(words, tokens)
  {
    var k := p + |words[i]| - 1;
    OccurrenceEnds(words[i], tokens, p);
    assert Banned(words, tokens[..k], tokens[k]);
  }

  lemma SuffixOccurs(w: Word, tokens: seq<Token>, k: nat)
    requires k < |tokens| && IsSuffix(w, tokens[..k] + [tokens[k]])
    ensures Occurs(w, tokens)
  {
    var s := tokens[..k] + [tokens[k]];
    var p := |s| - |w|;
    assert tokens[p..p + |w|] == s[p..];
    assert OccursAt(w, tokens, p);
  }

  lemma OccurrenceEnds(w: Word, tokens: seq<Token>, p: nat)
    requires w != [] && p + |w| <= |tokens| && tokens[p..p + |w|] == w
    ensures
      var k := p + |w| - 1;
      IsSuffix(w, tokens[..k] + [tokens[k]])
  {
    var k := p + |w| - 1;
    var s := tokens[..k] + [tokens[k]];
    assert s == tokens[..k + 1];
    assert s[|s| - |w|..] == tokens[p..p + |w|];
  }

  /** Step k of a run raises when it is reached: an empty bad word, a bad word out of the
      vocabulary of the first step, or another vocabulary. */
  ghost predicate RaisesAt(words: seq<Word>, logits: seq<seq<Logit>>, k: nat)
    requires k < |logits|
  {
    HasEmptyWord(words) || !InVocabulary(words, |logits[0]|) || |logits[k]| != |logits[0]|
  }

  /** The processed logit of the token picked at step k is above minus infinity. */
  ghost predicate AllowedAt(words: seq<Word>, tokens: seq<Token>, logits: seq<seq<Logit>>, k: nat)
    requires k < |tokens| == |logits| && 0 <= tokens[k] < |logits[k]|
  {
    AboveNegInf(Masked(words, tokens[..k], tokens[k], logits[k][tokens[k]]))
  }

  ghost predicate PicksTokens(tokens: seq<Token>, logits: seq<seq<Logit>>) {
    |tokens| == |logits| && forall k :: 0 <= k < |tokens| ==> 0 <= tokens[k] < |logits[k]|
  }

  /** The first n steps neither raise nor refuse their token. */
  ghost predicate PassesTo(words: seq<Word>, tokens: seq<Token>, logits: seq<seq<Logit>>, n: nat)
    requires PicksTokens(tokens, logits) && n <= |tokens|
  {
    forall k :: 0 <= k < n ==> !RaisesAt(words, logits, k) && AllowedAt(words, tokens, logits, k)
  }

  /** Passing every step keeps bad words out; a refused pick with its logit above minus
      infinity brings one in. */
  lemma PassingMeansNoBadWord(words: seq<Word>, tokens: seq<Token>, logits: seq<seq<Logit>>, n: nat)
    requires PicksTokens(tokens, logits) && n <= |tokens| && PassesTo(words, tokens, logits, n)
    ensures n == |tokens| ==> !HasBadWord(words, tokens)
    ensures n < |tokens| && !AllowedAt(words, tokens, logits, n) && AboveNegInf(logits[n][tokens[n]]) ==>
              HasBadWord(words, tokens)
  {
    forall k | 0 <= k < n ensures !Banned(words, tokens[..k], tokens[k]) {
      BannedIsRefused(words, tokens, logits, k);
    }
    BannedIffBadWord(words, tokens);
  }

  lemma BannedIsRefused(words: seq<Word>, tokens: seq<Token>, logits: seq<seq<Logit>>, k: nat)
    requires k < |tokens| == |logits| && 0 <= tokens[k] < |logits[k]| && AllowedAt(words, tokens, logits, k)
    ensures !Banned(words, tokens[..k], tokens[k])
  {
  }

  /** A whole run from an empty output.  It ends with None, which stands for an exception, or
      with a refused token, or else it is allowed. */
  method Replay(words: seq<Word>, tokens: seq<Token>, logits: seq<seq<Logit>>) returns (r: Option<bool>)
    requires PicksTokens(tokens, logits)
    ensures r == Some(true) <==> PassesTo(words, tokens, logits, |tokens|)
    ensures r == None <==>
              exists k: nat :: k < |tokens| && PassesTo(words, tokens, logits, k) && RaisesAt(words, logits, k)
    ensures r == Some(true) ==> !HasBadWord(words, tokens)
    ensures r == Some(false) && (forall k :: 0 <= k < |tokens| ==> AboveNegInf(logits[k][tokens[k]])) ==>
              HasBadWord(words, tokens)
  {
    var processor := new NoBadWordsLogitsProcessor(words);
    for k := 0 to |tokens|
      invariant processor.Valid() && processor.badWords == words
      invariant if k == 0 then processor.wordBias.None? else
                  processor.wordBias.Some? && |processor.wordBias.value| == |logits[0]|
      invariant PassesTo(words, tokens, logits, k)
    {
      var processed := processor.Call(tokens[..k], logits[k]);
      assert processed.None? <==> RaisesAt(words, logits, k);
      if processed.None? {
        return None;
      }
      assert AboveNegInf(processed.value[tokens[k]]) <==> AllowedAt(words, tokens, logits, k);
      if !AboveNegInf(processed.value[tokens[k]]) {
        PassingMeansNoBadWord(words, tokens, logits, k);
        return Some(false);
      }
    }
    PassingMeansNoBadWord(words, tokens, logits, |tokens|);
    r := Some(true);
  }
}
