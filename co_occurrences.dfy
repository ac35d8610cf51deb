/**
 * The bigram counter: every token list handed to it raises the count of each
 * token and of each pair of adjacent tokens. Afterwards the pairs whose two
 * tokens are both frequent and neither is a stop word are selected, and at
 * most a thousand of them are printed.
 */
module Bigrams {
  import opened JavaLang
  import opened TokenPairs
  import opened Counting
  import StopWords

  /** A pair is a candidate only when each of its tokens occurs more often than this. */
  const MinOccurrences: nat := 1000

  /** At most this many results are printed. */
  const MaxResults: nat := 1000

  // ---------------------------------------------------------------------------
  // Adjacent pairs
  // ---------------------------------------------------------------------------

  /** The pairs of adjacent tokens, in order: one per position but the last. */
  function Pairs(tokens: seq<string>): (r: seq<CoOccurrence<string>>)
    ensures |r| == if tokens == [] then 0 else |tokens| - 1
  {
    if |tokens| < 2 then []
    else Pairs(tokens[..|tokens| - 1]) + [New(tokens[|tokens| - 2], tokens[|tokens| - 1])]
  }

  /** The i-th pair is the i-th token followed by the next one. */
  lemma {:induction false} PairsAt(tokens: seq<string>, i: nat)
    requires i + 1 < |tokens|
    ensures Pairs(tokens)[i] == New(tokens[i], tokens[i + 1])
  {
    var init := tokens[..|tokens| - 1];
    if i + 1 < |init| {
      PairsAt(init, i);
    }
  }

  /** A token appended to a non-empty list adds one pair, with the list's last token. */
  lemma PairsSnoc(xs: seq<string>, x: string)
    requires xs != []
    ensures Pairs(xs + [x]) == Pairs(xs) + [New(xs[|xs| - 1], x)]
  {
    assert (xs + [x])[..|xs|] == xs;
  }

  /** The positions where `a` is immediately followed by `b`. */
  function Adjacencies(tokens: seq<string>, a: string, b: string): set<int> {
    set i {:trigger tokens[i]} | 0 <= i < |tokens| - 1 && tokens[i] == a && tokens[i + 1] == b
  }

  /** One more token adds the last position when it completes the pair. */
  lemma AdjacenciesSnoc(tokens: seq<string>, a: string, b: string)
    requires |tokens| >= 2
    ensures var n := |tokens|;
      Adjacencies(tokens, a, b) == Adjacencies(tokens[..n - 1], a, b) + (if tokens[n - 2] == a && tokens[n - 1] == b then {n - 2} else {})
    ensures |tokens| - 2 !in Adjacencies(tokens[..|tokens| - 1], a, b)
  {
    var n := |tokens|;
    var init := tokens[..n - 1];
    forall i
      ensures i in Adjacencies(tokens, a, b) <==>
        i in Adjacencies(init, a, b) + (if tokens[n - 2] == a && tokens[n - 1] == b then {n - 2} else {})
    {
      if 0 <= i < n - 2 {
        assert init[i] == tokens[i] && init[i + 1] == tokens[i + 1];
      }
    }
  }

  /** The pair (a, b) is counted once per position where `a` is immediately followed by `b`. */
  lemma {:induction false} PairCountIsAdjacencies(tokens: seq<string>, a: string, b: string)
    ensures multiset(Pairs(tokens))[New(a, b)] == |Adjacencies(tokens, a, b)|
  {
    var n := |tokens|;
    if n >= 2 {
      var init := tokens[..n - 1];
      PairCountIsAdjacencies(init, a, b);
      var last := New(tokens[n - 2], tokens[n - 1]);
      assert Pairs(tokens) == Pairs(init) + [last];
      AdjacenciesSnoc(tokens, a, b);
      if tokens[n - 2] == a && tokens[n - 1] == b {
        assert multiset(Pairs(tokens))[New(a, b)] == multiset(Pairs(init))[New(a, b)] + 1;
      } else {
        assert multiset(Pairs(tokens))[New(a, b)] == multiset(Pairs(init))[New(a, b)];
      }
    } else {
      assert Adjacencies(tokens, a, b) == {};
    }
  }

  /** A pair is counted no more often than its left token occurs before the last position. */
  lemma {:induction false} PairsBoundLeft(tokens: seq<string>, p: CoOccurrence<string>)
    requires tokens != []
    ensures multiset(Pairs(tokens))[p] <= multiset(tokens[..|tokens| - 1])[p.leftToken]
  {
    var n := |tokens|;
    if n >= 2 {
      var init := tokens[..n - 1];
      var before := init[..n - 2];
      PairsBoundLeft(init, p);
      var last := New(tokens[n - 2], tokens[n - 1]);
      assert Pairs(tokens) == Pairs(init) + [last];
      assert multiset(Pairs(tokens))[p] == multiset(Pairs(init))[p] + (if last == p then 1 else 0);
      assert init == before + [tokens[n - 2]];
      assert multiset(init)[p.leftToken] == multiset(before)[p.leftToken] + (if tokens[n - 2] == p.leftToken then 1 else 0);
    }
  }

  /** A pair is counted no more often than its right token occurs after the first position. */
  lemma {:induction false} PairsBoundRight(tokens: seq<string>, p: CoOccurrence<string>)
    requires tokens != []
    ensures multiset(Pairs(tokens))[p] <= multiset(tokens[1..])[p.rightToken]
  {
    var n := |tokens|;
    if n >= 2 {
      var init := tokens[..n - 1];
      PairsBoundRight(init, p);
      var last := New(tokens[n - 2], tokens[n - 1]);
      assert Pairs(tokens) == Pairs(init) + [last];
      assert multiset(Pairs(tokens))[p] == multiset(Pairs(init))[p] + (if last == p then 1 else 0);
      assert tokens[1..] == init[1..] + [tokens[n - 1]];
      assert multiset(tokens[1..])[p.rightToken] == multiset(init[1..])[p.rightToken] + (if tokens[n - 1] == p.rightToken then 1 else 0);
    }
  }

  /** Both bounds together, against the whole token list. */
  lemma PairsBounded(tokens: seq<string>, p: CoOccurrence<string>)
    ensures multiset(Pairs(tokens))[p] <= multiset(tokens)[p.leftToken]
    ensures multiset(Pairs(tokens))[p] <= multiset(tokens)[p.rightToken]
  {
    if tokens != [] {
      var n := |tokens|;
      PairsBoundLeft(tokens, p);
      PairsBoundRight(tokens, p);
      PrefixCountBound(tokens, n - 1, p.leftToken);
      SuffixCountBound(tokens, 1, p.rightToken);
    }
  }

  /** The pairs of a concatenation are those of each half plus the one pair across the seam. */
  lemma {:induction false} PairsAppend(xs: seq<string>, ys: seq<string>)
    requires xs != [] && ys != []
    ensures Pairs(xs + ys) == Pairs(xs) + [New(xs[|xs| - 1], ys[0])] + Pairs(ys)
  {
    var zs := xs + ys;
    var n := |zs|;
    var seam := Pairs(xs) + [New(xs[|xs| - 1], ys[0])];
    assert |Pairs(zs)| == |seam + Pairs(ys)|;
    forall i | 0 <= i < |Pairs(zs)|
      ensures Pairs(zs)[i] == (seam + Pairs(ys))[i]
    {
      PairsAt(zs, i);
      if i >= |xs| {
        PairsAt(ys, i - |xs|);
      } else if i + 1 < |xs| {
        PairsAt(xs, i);
      }
    }
  }

  /**
   * One call raises the sum of the token counts by the number of tokens and
   * the sum of the pair counts by the number of adjacent positions.
   */
  lemma CountTotals(occurrences: map<string, nat>, coOccurrences: map<CoOccurrence<string>, nat>, tokens: seq<string>)
    ensures Total(Tally(occurrences, tokens)) == Total(occurrences) + |tokens|
    ensures Total(Tally(coOccurrences, Pairs(tokens))) == Total(coOccurrences) + (if tokens == [] then 0 else |tokens| - 1)
  {
    TallyTotal(occurrences, tokens);
    TallyTotal(coOccurrences, Pairs(tokens));
  }

  // ---------------------------------------------------------------------------
  // The counter's invariant
  // ---------------------------------------------------------------------------

  /**
   * Every token count is positive, every pair key carries the default score,
   * and every pair is counted at least once and no more often than either of
   * its tokens.
   */
  predicate Counts(occurrences: map<string, nat>, coOccurrences: map<CoOccurrence<string>, nat>) {
    (forall t :: t in occurrences ==> occurrences[t] >= 1) &&
    (forall p :: p in coOccurrences ==>
       p.score == 0.0 && 1 <= coOccurrences[p] &&
       coOccurrences[p] <= Get(occurrences, p.leftToken) &&
       coOccurrences[p] <= Get(occurrences, p.rightToken))
  }

  /** Under the invariant both token lookups of a counted pair find a value. */
  lemma CountsLookups(occurrences: map<string, nat>, coOccurrences: map<CoOccurrence<string>, nat>, p: CoOccurrence<string>)
    requires Counts(occurrences, coOccurrences) && p in coOccurrences
    ensures p.leftToken in occurrences && p.rightToken in occurrences
  {
  }

  /** Counting a token list keeps the invariant. */
  lemma CountsPreserved(occurrences: map<string, nat>, coOccurrences: map<CoOccurrence<string>, nat>, tokens: seq<string>)
    requires Counts(occurrences, coOccurrences)
    ensures Counts(Tally(occurrences, tokens), Tally(coOccurrences, Pairs(tokens)))
  {
    var occ := Tally(occurrences, tokens);
    var co := Tally(coOccurrences, Pairs(tokens));
    forall t | t in occ
      ensures occ[t] >= 1
    {
      TokenCounted(occurrences, coOccurrences, tokens, t);
    }
    forall p | p in co
      ensures p.score == 0.0 && 1 <= co[p] <= Get(occ, p.leftToken) && co[p] <= Get(occ, p.rightToken)
    {
      PairCounted(occurrences, coOccurrences, tokens, p);
    }
  }

  /** One more token of the list counted. */
  lemma TokenStep(occurrences: map<string, nat>, tokens: seq<string>, i: nat)
    requires i < |tokens|
    ensures Tally(occurrences, tokens[..i + 1]) == Inc(Tally(occurrences, tokens[..i]), tokens[i])
  {
    assert tokens[..i + 1] == tokens[..i] + [tokens[i]];
    TallySnoc(occurrences, tokens[..i], tokens[i]);
  }

  /** One more token of the list: the pair it closes with the previous token counted, if any. */
  lemma PairStep(coOccurrences: map<CoOccurrence<string>, nat>, tokens: seq<string>, i: nat)
    requires i < |tokens|
    ensures i == 0 ==> Tally(coOccurrences, Pairs(tokens[..i + 1])) == Tally(coOccurrences, Pairs(tokens[..i]))
    ensures i > 0 ==>
      Tally(coOccurrences, Pairs(tokens[..i + 1])) == Inc(Tally(coOccurrences, Pairs(tokens[..i])), New(tokens[i - 1], tokens[i]))
  {
    assert tokens[..i + 1] == tokens[..i] + [tokens[i]];
    if i > 0 {
      PairsSnoc(tokens[..i], tokens[i]);
      TallySnoc(coOccurrences, Pairs(tokens[..i]), New(tokens[i - 1], tokens[i]));
    } else {
      assert Pairs(tokens[..i + 1]) == [] == Pairs(tokens[..i]);
    }
  }

  /** A token counted after the list is counted at least once. */
  lemma TokenCounted(occurrences: map<string, nat>, coOccurrences: map<CoOccurrence<string>, nat>, tokens: seq<string>, t: string)
    requires Counts(occurrences, coOccurrences)
    requires t in Tally(occurrences, tokens)
    ensures Tally(occurrences, tokens)[t] >= 1
  {
    TallyCount(occurrences, tokens, t);
    TallyKeys(occurrences, tokens);
    if t !in occurrences {
      assert t in tokens;
    }
  }

  /** A pair counted after the list is counted at least once and no more often than either token. */
  lemma PairCounted(occurrences: map<string, nat>, coOccurrences: map<CoOccurrence<string>, nat>, tokens: seq<string>, p: CoOccurrence<string>)
    requires Counts(occurrences, coOccurrences)
    requires p in Tally(coOccurrences, Pairs(tokens))
    ensures var occ, co := Tally(occurrences, tokens), Tally(coOccurrences, Pairs(tokens));
      p.score == 0.0 && 1 <= co[p] <= Get(occ, p.leftToken) && co[p] <= Get(occ, p.rightToken)
  {
    TallyKeys(coOccurrences, Pairs(tokens));
    TallyCount(coOccurrences, Pairs(tokens), p);
    TallyCount(occurrences, tokens, p.leftToken);
    TallyCount(occurrences, tokens, p.rightToken);
    PairsBounded(tokens, p);
    if p !in coOccurrences {
      var i :| 0 <= i < |Pairs(tokens)| && Pairs(tokens)[i] == p;
      PairsAt(tokens, i);
    }
  }

  /**
   * Counting two lists in two calls misses exactly the pair across the seam:
   * that pair is counted once less than when the lists are counted together.
   */
  lemma NoPairAcrossCalls(coOccurrences: map<CoOccurrence<string>, nat>, xs: seq<string>, ys: seq<string>, p: CoOccurrence<string>)
    requires xs != [] && ys != []
    ensures Get(Tally(coOccurrences, Pairs(xs + ys)), p) ==
      Get(Tally(Tally(coOccurrences, Pairs(xs)), Pairs(ys)), p) + (if p == New(xs[|xs| - 1], ys[0]) then 1 else 0)
  {
    PairsAppend(xs, ys);
    TallyAppend(coOccurrences, Pairs(xs), Pairs(ys));
    TallyCount(coOccurrences, Pairs(xs + ys), p);
    TallyCount(coOccurrences, Pairs(xs) + Pairs(ys), p);
  }

  // ---------------------------------------------------------------------------
  // Candidate selection
  // ---------------------------------------------------------------------------

  /** Both tokens are frequent, and neither is a stop word. */
  predicate Candidate(occurrences: map<string, nat>, stopWords: set<string>, p: CoOccurrence<string>) {
    Get(occurrences, p.leftToken) > MinOccurrences && Get(occurrences, p.rightToken) > MinOccurrences &&
    p.leftToken !in stopWords && p.rightToken !in stopWords
  }

  /** Two words hold a stop word exactly when one of them is one. */
  lemma EitherWordStops(words: seq<string>, stopWords: set<string>)
    requires |words| == 2
    ensures (exists i :: 0 <= i < |words| && words[i] in stopWords) <==> words[0] in stopWords || words[1] in stopWords
  {
  }

  /** The printed prefix of the ranked results. */
  function Limit<T>(ranked: seq<T>): (r: seq<T>)
    ensures |r| <= MaxResults
  {
    if |ranked| <= MaxResults then ranked else ranked[..MaxResults]
  }

  /**
   * Whatever order the scores give the results, what is printed is at most a
   * thousand distinct candidates, and all of them when there are no more.
   */
  lemma LimitKeepsCandidates(results: seq<CoOccurrence<string>>, ranked: seq<CoOccurrence<string>>)
    requires multiset(ranked) == multiset(results)
    requires forall i, j :: 0 <= i < j < |results| ==> results[i] != results[j]
    ensures |Limit(ranked)| == if |results| <= MaxResults then |results| else MaxResults
    ensures forall p :: p in Limit(ranked) ==> p in results
    ensures forall i, j :: 0 <= i < j < |Limit(ranked)| ==> Limit(ranked)[i] != Limit(ranked)[j]
    ensures |results| <= MaxResults ==> forall p :: p in results ==> p in Limit(ranked)
  {
    assert |ranked| == |multiset(ranked)| == |results|;
    forall p | p in ranked
      ensures p in results
    {
      assert multiset(ranked)[p] > 0;
    }
    forall p | p in results
      ensures p in ranked
    {
      assert multiset(results)[p] > 0;
    }
    forall i, j | 0 <= i < j < |ranked|
      ensures ranked[i] != ranked[j]
    {
      if ranked[i] == ranked[j] {
        RepeatCountsTwice(ranked, i, j);
        DistinctCount(results, ranked[i]);
        assert false;
      }
    }
  }

  // ---------------------------------------------------------------------------
  // The counter
  // ---------------------------------------------------------------------------

  class CoOccurrences {
    /** How often each token has been seen. */
    var occurrences: map<string, nat>
    /** How often each ordered pair of adjacent tokens has been seen. */
    var coOccurrences: map<CoOccurrence<string>, nat>
    const stopWordHelper: StopWords.StopWordHelper

    ghost predicate Valid()
      reads this
    {
      Counts(occurrences, coOccurrences)
    }

    /** Both maps start empty. */
    constructor ()
      ensures occurrences == map[] && coOccurrences == map[]
      ensures Valid()
    {
      coOccurrences := map[];
      occurrences := map[];
      stopWordHelper := new StopWords.StopWordHelper();
    }

    /**
     * Counts every token and every pair of adjacent tokens of one list. The
     * previous token starts empty on each call, so no pair spans two calls.
     */
    method AddTokens(tokens: seq<string>)
      requires Valid()
      modifies this
      ensures occurrences == Tally(old(occurrences), tokens)
      ensures coOccurrences == Tally(old(coOccurrences), Pairs(tokens))
      ensures Valid()
    {
      ghost var occ0, co0 := occurrences, coOccurrences;
      var previousToken: Option<string> := None;
      for i := 0 to |tokens|
        invariant occurrences == Tally(occ0, tokens[..i])
        invariant coOccurrences == Tally(co0, Pairs(tokens[..i]))
        invariant previousToken == if i == 0 then None else Some(tokens[i - 1])
      {
        var token := tokens[i];
        TokenStep(occ0, tokens, i);
        PairStep(co0, tokens, i);
        if token in occurrences {
          occurrences := occurrences[token := occurrences[token] + 1];
        } else {
          occurrences := occurrences[token := 1];
        }
        if previousToken.Some? {
          var coOccurrence := New(previousToken.value, token);
          if coOccurrence in coOccurrences {
            coOccurrences := coOccurrences[coOccurrence := coOccurrences[coOccurrence] + 1];
          } else {
            coOccurrences := coOccurrences[coOccurrence := 1];
          }
        }
        previousToken := Some(token);
      }
      assert tokens[..|tokens|] == tokens;
      CountsPreserved(occ0, co0, tokens);
    }

    /**
     * The pairs that pass the filter, each once, in the map's iteration order
     * (which is not fixed).
     */
    method Candidates() returns (results: seq<CoOccurrence<string>>)
      requires Valid()
      ensures forall p :: p in results <==> p in coOccurrences && Candidate(occurrences, stopWordHelper.stopWordSet, p)
      ensures forall i, j :: 0 <= i < j < |results| ==> results[i] != results[j]
    {
      results := [];
      var keys := coOccurrences.Keys;
      while keys != {}
        invariant keys <= coOccurrences.Keys
        invariant forall p :: p in results <==>
          p in coOccurrences && p !in keys && Candidate(occurrences, stopWordHelper.stopWordSet, p)
        invariant forall i, j :: 0 <= i < j < |results| ==> results[i] != results[j]
        decreases |keys|
      {
        var coOccurrence :| coOccurrence in keys;
        CountsLookups(occurrences, coOccurrences, coOccurrence);
        if occurrences[coOccurrence.leftToken] > MinOccurrences && occurrences[coOccurrence.rightToken] > MinOccurrences {
          var words := [coOccurrence.leftToken, coOccurrence.rightToken];
          var stop := stopWordHelper.IsStopWord(words);
          EitherWordStops(words, stopWordHelper.stopWordSet);
          if !stop {
            results := results + [coOccurrence];
          }
        }
        keys := keys - {coOccurrence};
      }
    }
  }
}
