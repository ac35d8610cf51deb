/**
 * The stop-word filter used when term pairs are selected: a fixed word list
 * read once into a set, and a membership test over any number of words.
 */
module StopWords {
  import opened JavaLang

  /**
   * The words of the stop-word literal, in the order they are listed, in
   * stretches of 25 so that facts about them can be checked a stretch at a time.
   */
  const Words0: seq<string> := [
    "a", "about", "above", "after", "again", "against", "all", "am", "an", "and", "any", "are",
    "aren't", "as", "at", "be", "because", "been", "before", "being", "below", "between",
    "both", "but", "by"
  ]

  const Words1: seq<string> := [
    "can't", "cannot", "could", "couldn't", "did", "didn't", "do", "does", "doesn't", "doing",
    "don't", "down", "during", "each", "few", "for", "from", "further", "had", "hadn't", "has",
    "hasn't", "have", "haven't", "having"
  ]

  const Words2: seq<string> := [
    "he", "he'd", "he'll", "he's", "her", "here", "here's", "hers", "herself", "him",
    "himself", "his", "how", "how's", "i", "i'd", "i'll", "i'm", "i've", "if", "in", "into",
    "is", "isn't", "it"
  ]

  const Words3: seq<string> := [
    "it's", "its", "itself", "let's", "me", "more", "most", "mustn't", "my", "myself", "no",
    "nor", "not", "of", "off", "on", "once", "only", "or", "other", "ought", "our", "ours",
    "ourselves", "out"
  ]

  const Words4: seq<string> := [
    "over", "own", "same", "shan't", "she", "she'd", "she'll", "she's", "should", "shouldn't",
    "so", "some", "such", "than", "that", "that's", "the", "their", "theirs", "them",
    "themselves", "then", "there", "there's", "these"
  ]

  const Words5: seq<string> := [
    "they", "they'd", "they'll", "they're", "they've", "this", "those", "through", "to", "too",
    "under", "until", "up", "very", "was", "wasn't", "we", "we'd", "we'll", "we're", "we've",
    "were", "weren't", "what", "what's"
  ]

  const Words6: seq<string> := [
    "when", "when's", "where", "where's", "which", "while", "who", "who's", "whom", "why",
    "why's", "with", "won't", "would", "wouldn't", "you", "you'd", "you'll", "you're",
    "you've", "your", "yours", "yourself", "yourselves"
  ]

  const Words: seq<string> := Words0 + Words1 + Words2 + Words3 + Words4 + Words5 + Words6

  /** A word made of lower-case ASCII letters and apostrophes only. */
  predicate Plain(w: string) {
    forall j :: 0 <= j < |w| ==> 'a' <= w[j] <= 'z' || w[j] == '\''
  }

  lemma Words0Plain()
    ensures forall i :: 0 <= i < |Words0| ==> Plain(Words0[i])
  {
  }

  lemma Words1Plain()
    ensures forall i :: 0 <= i < |Words1| ==> Plain(Words1[i])
  {
  }

  lemma Words2Plain()
    ensures forall i :: 0 <= i < |Words2| ==> Plain(Words2[i])
  {
  }

  lemma Words3Plain()
    ensures forall i :: 0 <= i < |Words3| ==> Plain(Words3[i])
  {
  }

  lemma Words4Plain()
    ensures forall i :: 0 <= i < |Words4| ==> Plain(Words4[i])
  {
  }

  lemma Words5Plain()
    ensures forall i :: 0 <= i < |Words5| ==> Plain(Words5[i])
  {
  }

  lemma Words6Plain()
    ensures forall i :: 0 <= i < |Words6| ==> Plain(Words6[i])
  {
  }

  /** Every listed word is plain; there are 174 of them, the last one not empty. */
  lemma WordsArePlain()
    ensures |Words| == 174 && Words[173] == "yourselves"
    ensures forall i :: 0 <= i < |Words| ==> Plain(Words[i])
  {
    Words0Plain(); Words1Plain(); Words2Plain(); Words3Plain(); Words4Plain(); Words5Plain(); Words6Plain();
  }

  /**
   * The literal itself: it opens with a line break and then lists the words,
   * one per line, with no line break after the last one.
   */
  const StopWordsText: string := "\n" + Join(Words, "\n")

  /**
   * Splitting the literal at its line breaks gives the listed words preceded
   * by one empty word: the leading line break opens an empty first piece,
   * which `split` keeps.
   */
  lemma SplitStopWords()
    ensures Split(StopWordsText, ["\n"]) == [""] + Words
  {
    WordsArePlain();
    var ws := [""] + Words;
    assert Join(ws, "\n") == StopWordsText by {
      assert ws[1..] == Words;
    }
    forall i | 0 <= i < |ws| ensures '\n' !in ws[i] {
      if i > 0 { assert ws[i] == Words[i - 1] && Plain(Words[i - 1]); }
    }
    SplitJoin(ws, '\n');
  }

  /** `Collections.addAll` into an empty set: every word, one at a time. */
  method AddAll(words: seq<string>) returns (added: set<string>)
    ensures forall w :: w in added <==> w in words
  {
    added := {};
    for i := 0 to |words|
      invariant forall w :: w in added <==> w in words[..i]
    {
      assert words[..i + 1] == words[..i] + [words[i]];
      added := added + {words[i]};
    }
    assert words[..|words|] == words;
  }

  class StopWordHelper {
    /** The words of the literal; filled by the constructor and never changed after. */
    const stopWordSet: set<string>

    /** Splits the literal at its line breaks and adds every piece to the set. */
    constructor ()
      ensures stopWordSet == set w | w in [""] + Words
    {
      var words := Split(StopWordsText, ["\n"]);
      SplitStopWords();
      var added := AddAll(words);
      stopWordSet := added;
    }

    /** `isStopWord`: some argument is in the set; with no arguments, none is. */
    method IsStopWord(words: seq<string>) returns (r: bool)
      ensures r <==> exists i :: 0 <= i < |words| && words[i] in stopWordSet
      ensures words == [] ==> !r
    {
      for i := 0 to |words|
        invariant forall j :: 0 <= j < i ==> words[j] !in stopWordSet
      {
        if words[i] in stopWordSet {
          return true;
        }
      }
      return false;
    }
  }

  /** Membership is exact: case matters, and the empty word is a stop word. */
  lemma StopWordExamples()
    ensures "the" in [""] + Words
    ensures "" in [""] + Words
    ensures "The" !in [""] + Words
  {
    WordsArePlain();
    assert Words[116] == Words4[16] == "the";
    forall i | 0 <= i < |Words| ensures Words[i] != "The" {
      if |Words[i]| > 0 {
        assert 'a' <= Words[i][0] <= 'z' || Words[i][0] == '\'';
      }
    }
  }
}
