/**
 * Tokenizer and header helpers of the boolean retrieval engine.
 */
module ParseUtils {
  import opened JavaLang
  import opened Documents

  /** The marker a suspended title carries in its header line. */
  const Suspended := "{{suspended}}"

  /** The alternatives of the delimiter pattern `\.|,| |\?|:|!`. */
  const Delimiters: seq<string> := [".", ",", " ", "?", ":", "!"]

  predicate IsDelimiter(c: char) {
    c == '.' || c == ',' || c == ' ' || c == '?' || c == ':' || c == '!'
  }

  // ---------------------------------------------------------------------------
  // Tokenizer
  // ---------------------------------------------------------------------------

  /** The loop that keeps the non-empty pieces, in order. */
  function NonEmptyTokens(xs: seq<string>): (r: seq<string>)
    ensures forall i :: 0 <= i < |r| ==> r[i] != ""
    ensures forall t :: t in r <==> t in xs && t != ""
  {
    if xs == [] then []
    else (if xs[0] == "" then [] else [xs[0]]) + NonEmptyTokens(xs[1..])
  }

  /** `tokenize`: lower-case the text, split it at the delimiters, drop empty pieces. */
  function Tokenize(s: string): seq<string>
  {
    NonEmptyTokens(Split(ToLower(s), Delimiters))
  }

  /**
   * An independent description of the tokens: scan the text one character at
   * a time, extending the current word and closing it at each delimiter.
   */
  function Words(s: string): seq<string>
  {
    WordsFrom(s, "")
  }

  function WordsFrom(s: string, current: string): seq<string>
    decreases |s|
  {
    if s == [] then (if current == "" then [] else [current])
    else if IsDelimiter(s[0]) then (if current == "" then [] else [current]) + WordsFrom(s[1..], "")
    else WordsFrom(s[1..], current + [s[0]])
  }

  lemma {:induction false} NonEmptyTokensAppend(a: seq<string>, b: seq<string>)
    ensures NonEmptyTokens(a + b) == NonEmptyTokens(a) + NonEmptyTokens(b)
  {
    if a == [] {
      assert a + b == b;
    } else {
      assert (a + b)[0] == a[0];
      assert (a + b)[1..] == a[1..] + b;
      NonEmptyTokensAppend(a[1..], b);
    }
  }

  lemma {:induction false} NonEmptyTokensDropTrailing(xs: seq<string>)
    ensures NonEmptyTokens(DropTrailingEmpty(xs)) == NonEmptyTokens(xs)
  {
    var r := DropTrailingEmpty(xs);
    assert xs == r + xs[|r|..];
    NonEmptyTokensAppend(r, xs[|r|..]);
    NonEmptyTokensAllEmpty(xs[|r|..]);
  }

  lemma {:induction false} NonEmptyTokensAllEmpty(xs: seq<string>)
    requires forall i :: 0 <= i < |xs| ==> xs[i] == ""
    ensures NonEmptyTokens(xs) == []
  {
    if xs != [] { NonEmptyTokensAllEmpty(xs[1..]); }
  }

  lemma DelimiterMatch(s: string)
    requires s != []
    ensures MatchAt(s, Delimiters).Some? <==> IsDelimiter(s[0])
    ensures MatchAt(s, Delimiters).Some? ==> |MatchAt(s, Delimiters).value| == 1
  {
    assert s[..1] == [s[0]];
    forall d: string | |d| == 1 ensures StartsWith(s, d) <==> s[0] == d[0] {
      assert s[..1] == [s[0]] && d == [d[0]];
    }
    var m := MatchAt(s, Delimiters);
    if IsDelimiter(s[0]) {
      assert [s[0]] in Delimiters;
      assert StartsWith(s, [s[0]]);
    }
    if m.Some? {
      assert m.value in Delimiters;
      assert |m.value| == 1;
      assert StartsWith(s, m.value);
    }
  }

  /** Prepends `current` to the first piece. */
  function Continue(current: string, ps: seq<string>): seq<string>
    requires |ps| >= 1
  {
    [current + ps[0]] + ps[1..]
  }

  lemma {:induction false} PiecesAreWords(s: string, current: string)
    ensures NonEmptyTokens(Continue(current, Pieces(s, Delimiters))) == WordsFrom(s, current)
    decreases |s|
  {
    var ps := Pieces(s, Delimiters);
    if s == [] {
      assert ps == [""];
      assert Continue(current, ps) == [current + ""];
      assert current + "" == current;
    } else {
      DelimiterMatch(s);
      if IsDelimiter(s[0]) {
        var rest := Pieces(s[1..], Delimiters);
        var m := MatchAt(s, Delimiters);
        assert s[|m.value|..] == s[1..];
        assert ps == [""] + rest;
        assert Continue("", rest) == rest by { assert "" + rest[0] == rest[0]; }
        assert Continue(current, ps) == [current] + Continue("", rest) by { assert current + "" == current; }
        NonEmptyTokensAppend([current], Continue("", rest));
        PiecesAreWords(s[1..], "");
      } else {
        var rest := Pieces(s[1..], Delimiters);
        assert ps == [[s[0]] + rest[0]] + rest[1..];
        assert current + ([s[0]] + rest[0]) == (current + [s[0]]) + rest[0];
        assert Continue(current, ps) == Continue(current + [s[0]], rest);
        PiecesAreWords(s[1..], current + [s[0]]);
      }
    }
  }

  /** The tokens are exactly the maximal delimiter-free runs of the lower-cased text. */
  lemma TokenizeIsWords(s: string)
    ensures Tokenize(s) == Words(ToLower(s))
  {
    var l := ToLower(s);
    if l == [] {
      assert Split(l, Delimiters) == [""];
      assert NonEmptyTokens([""]) == [] by { assert [""][1..] == []; }
      assert Words(l) == [];
    } else {
      NonEmptyTokensDropTrailing(Pieces(l, Delimiters));
      PiecesAreWords(l, "");
      var ps := Pieces(l, Delimiters);
      assert "" + ps[0] == ps[0];
      assert Continue("", ps) == ps;
    }
  }

  predicate DelimiterFree(t: string) {
    forall j :: 0 <= j < |t| ==> !IsDelimiter(t[j])
  }

  predicate IsLowerCase(t: string) {
    forall j :: 0 <= j < |t| ==> !('A' <= t[j] <= 'Z')
  }

  lemma {:induction false} WordsFromShape(s: string, current: string)
    requires DelimiterFree(current) && IsLowerCase(current)
    requires IsLowerCase(s)
    ensures forall i :: 0 <= i < |WordsFrom(s, current)| ==>
      WordsFrom(s, current)[i] != "" && DelimiterFree(WordsFrom(s, current)[i]) && IsLowerCase(WordsFrom(s, current)[i])
    decreases |s|
  {
    if s != [] {
      if IsDelimiter(s[0]) {
        WordsFromShape(s[1..], "");
      } else {
        WordsFromShape(s[1..], current + [s[0]]);
      }
    }
  }

  /**
   * No token is empty, none holds a delimiter and none holds an upper-case
   * ASCII letter; every other character stays inside its token.
   */
  lemma TokensShape(s: string)
    ensures forall i :: 0 <= i < |Tokenize(s)| ==>
      Tokenize(s)[i] != "" && DelimiterFree(Tokenize(s)[i]) && IsLowerCase(Tokenize(s)[i])
  {
    TokenizeIsWords(s);
    WordsFromShape(ToLower(s), "");
  }

  /** A delimiter cuts the text into two independent halves. */
  lemma {:induction false} WordsFromSplit(a: string, d: char, b: string, current: string)
    requires IsDelimiter(d)
    ensures WordsFrom(a + [d] + b, current) == WordsFrom(a, current) + WordsFrom(b, "")
    decreases |a|
  {
    if a == [] {
      assert (a + [d] + b)[1..] == b;
    } else {
      assert (a + [d] + b)[1..] == a[1..] + [d] + b;
      if IsDelimiter(a[0]) {
        WordsFromSplit(a[1..], d, b, "");
      } else {
        WordsFromSplit(a[1..], d, b, current + [a[0]]);
      }
    }
  }

  lemma TokenizeAtDelimiter(a: string, d: char, b: string)
    requires IsDelimiter(d)
    ensures Tokenize(a + [d] + b) == Tokenize(a) + Tokenize(b)
  {
    TokenizeIsWords(a + [d] + b);
    TokenizeIsWords(a);
    TokenizeIsWords(b);
    ToLowerAppend(a + [d], b);
    ToLowerAppend(a, [d]);
    assert ToLower([d]) == [d];
    WordsFromSplit(ToLower(a), d, ToLower(b), "");
  }

  lemma {:induction false} WordsFromWord(w: string, current: string)
    requires DelimiterFree(w)
    ensures WordsFrom(w, current) == if current + w == "" then [] else [current + w]
    decreases |w|
  {
    if w == [] {
      assert current + w == current;
    } else {
      assert !IsDelimiter(w[0]);
      assert DelimiterFree(w[1..]) by {
        forall j | 0 <= j < |w[1..]| ensures !IsDelimiter(w[1..][j]) { assert w[1..][j] == w[j + 1]; }
      }
      assert current + [w[0]] + w[1..] == current + w;
      WordsFromWord(w[1..], current + [w[0]]);
    }
  }

  lemma {:induction false} WordsOfJoin(ts: seq<string>)
    requires forall i :: 0 <= i < |ts| ==> ts[i] != "" && DelimiterFree(ts[i])
    ensures Words(Join(ts, " ")) == ts
    decreases |ts|
  {
    if ts == [] {
    } else if |ts| == 1 {
      WordsFromWord(ts[0], "");
      assert "" + ts[0] == ts[0];
    } else {
      assert Join(ts, " ") == ts[0] + [' '] + Join(ts[1..], " ");
      WordsFromSplit(ts[0], ' ', Join(ts[1..], " "), "");
      WordsFromWord(ts[0], "");
      assert "" + ts[0] == ts[0];
      WordsOfJoin(ts[1..]);
      assert ts == [ts[0]] + ts[1..];
    }
  }

  lemma {:induction false} ToLowerOfLower(s: string)
    requires IsLowerCase(s)
    ensures ToLower(s) == s
  {
  }

  lemma {:induction false} JoinLowerCase(ts: seq<string>)
    requires forall i :: 0 <= i < |ts| ==> IsLowerCase(ts[i])
    ensures IsLowerCase(Join(ts, " "))
    decreases |ts|
  {
    if |ts| > 1 {
      JoinLowerCase(ts[1..]);
      var j := Join(ts, " ");
      assert j == ts[0] + " " + Join(ts[1..], " ");
      forall k | 0 <= k < |j| ensures !('A' <= j[k] <= 'Z') {
        if k < |ts[0]| { assert j[k] == ts[0][k]; }
        else if k > |ts[0]| { assert j[k] == Join(ts[1..], " ")[k - |ts[0]| - 1]; }
      }
    }
  }

  /** Re-tokenizing the tokens joined by single spaces gives the same tokens back. */
  lemma TokenizeJoinRoundTrip(s: string)
    ensures Tokenize(Join(Tokenize(s), " ")) == Tokenize(s)
  {
    var ts := Tokenize(s);
    TokensShape(s);
    JoinLowerCase(ts);
    ToLowerOfLower(Join(ts, " "));
    TokenizeIsWords(Join(ts, " "));
    WordsOfJoin(ts);
  }

  // ---------------------------------------------------------------------------
  // Header helpers
  // ---------------------------------------------------------------------------

  /**
   * `getYear`: the text after the last `(` (or from the start when there is
   * none) up to the last `)`; `substring` throws when that range is empty
   * the wrong way round or there is no `)`.
   */
  function GetYear(line: string): (r: Result<string>)
    ensures r.Ok? <==> LastIndexOf(line, '(') < LastIndexOf(line, ')')
  {
    Substring(line, LastIndexOf(line, '(') + 1, LastIndexOf(line, ')'))
  }

  /**
   * A year that was found splits its line into the text up to the last `(`
   * (or nothing when there is none), the year, and the text from the last `)`
   * on.
   */
  lemma GetYearSplitsLine(line: string)
    requires GetYear(line).Ok?
    ensures var b, e := LastIndexOf(line, '(') + 1, LastIndexOf(line, ')');
      line == line[..b] + GetYear(line).value + line[e..]
  {
    ThreeParts(line, LastIndexOf(line, '(') + 1, LastIndexOf(line, ')'));
  }

  /** A sequence is its prefix, middle and suffix put back together. */
  lemma ThreeParts<T>(s: seq<T>, b: nat, e: nat)
    requires b <= e <= |s|
    ensures s == s[..b] + s[b..e] + s[e..]
  {
    assert s[..b] + s[b..e] == s[..e];
  }

  /** The year is closed by the last `)` of the line and opened by its last `(`, if any. */
  lemma GetYearDelimiters(line: string)
    requires GetYear(line).Ok?
    ensures var b, e := LastIndexOf(line, '(') + 1, LastIndexOf(line, ')');
      && (b == 0 || line[b - 1] == '(')
      && line[e] == ')'
      && forall j :: e < j < |line| ==> line[j] != ')'
  {
  }

  /** Neither the year nor the text after it holds a `(`. */
  lemma GetYearNoOpenParen(line: string)
    requires GetYear(line).Ok?
    ensures '(' !in GetYear(line).value
    ensures '(' !in line[LastIndexOf(line, ')')..]
  {
    var lp, e := LastIndexOf(line, '('), LastIndexOf(line, ')');
    var b := lp + 1;
    var y := line[b..e];
    forall j | 0 <= j < |y| ensures y[j] != '(' {
      assert y[j] == line[b + j];
      if lp == -1 { assert '(' !in line; }
    }
    forall j | 0 <= j < |line| - e ensures line[e..][j] != '(' {
      assert line[e..][j] == line[e + j];
      if lp == -1 { assert '(' !in line; }
    }
  }

  /** `removeYear`: every occurrence of the parenthesised year is deleted. */
  function RemoveYear(line: string, year: string): (r: string)
    ensures |r| <= |line|
  {
    ReplaceByEmptyLength(line, "(" + year + ")");
    Replace(line, "(" + year + ")", "")
  }

  /** Text without the parenthesised year stays as it is ... */
  lemma RemoveYearAbsent(line: string, year: string)
    requires !Contains(line, "(" + year + ")")
    ensures RemoveYear(line, year) == line
  {
    ReplaceAbsent(line, "(" + year + ")", "");
  }

  /** ... and otherwise loses exactly the characters of each deleted occurrence. */
  lemma RemoveYearLength(line: string, year: string)
    ensures |RemoveYear(line, year)| == |line| - (|year| + 2) * Occurrences(line, "(" + year + ")")
    ensures Contains(line, "(" + year + ")") ==> |RemoveYear(line, year)| < |line|
  {
    ReplaceByEmptyLength(line, "(" + year + ")");
    OccurrencesPositive(line, "(" + year + ")");
  }

  /**
   * Text before the first `(` is kept, the parenthesised year after it is
   * deleted, and the rest of the line is treated the same way on its own.
   */
  lemma RemoveYearDeletes(a: string, year: string, b: string)
    requires '(' !in a
    ensures RemoveYear(a + "(" + year + ")" + b, year) == a + RemoveYear(b, year)
  {
    var p := "(" + year + ")";
    assert a + "(" + year + ")" + b == a + p + b;
    ReplaceAfterFree(a, p, "", b);
  }

  /** A line holding the year once loses exactly that occurrence. */
  lemma RemoveYearOnce(a: string, year: string, b: string)
    requires '(' !in a && !Contains(b, "(" + year + ")")
    ensures RemoveYear(a + "(" + year + ")" + b, year) == a + b
  {
    RemoveYearDeletes(a, year, b);
    RemoveYearAbsent(b, year);
  }

  /**
   * The type marker `handleTypeSubString` acts on and the type it records:
   * television, then video, then videogame are tried in that order.
   */
  function TypeMarker(line: string): (r: Option<(string, string)>)
    ensures r.Some? ==> Contains(line, r.value.0)
    ensures r.None? <==> !Contains(line, Television) && !Contains(line, Video) && !Contains(line, VideoGame)
    ensures r.Some? && r.value.1 == "video" ==> !Contains(line, Television)
    ensures r.Some? && r.value.1 == "videogame" ==> !Contains(line, Television) && !Contains(line, Video)
    ensures r.Some? ==> r.value in [(Television, "television"), (Video, "video"), (VideoGame, "videogame")]
  {
    if Contains(line, Television) then Some((Television, "television"))
    else if Contains(line, Video) then Some((Video, "video"))
    else if Contains(line, VideoGame) then Some((VideoGame, "videogame"))
    else None
  }

  /**
   * `handleTypeSubString`: removes every occurrence of the first marker the
   * line contains and records its type on the document; with no marker the
   * line and the document are both left as they were.
   */
  method HandleTypeSubString(doc: Document, line: string) returns (r: string)
    modifies doc
    ensures TypeMarker(line).None? ==> r == line && doc.Value() == old(doc.Value())
    ensures TypeMarker(line).Some? ==>
      && r == Replace(line, TypeMarker(line).value.0, "")
      && doc.Value() == old(doc.Value()).(docType := Some(TypeMarker(line).value.1))
  {
    r := line;
    if Contains(line, Television) {
      r := Replace(line, Television, "");
      doc.docType := Some("television");
    } else if Contains(line, Video) {
      r := Replace(line, Video, "");
      doc.docType := Some("video");
    } else if Contains(line, VideoGame) {
      r := Replace(line, VideoGame, "");
      doc.docType := Some("videogame");
    }
  }

  /** After the marker is removed the line is strictly shorter. */
  lemma TypeMarkerShortens(line: string)
    requires TypeMarker(line).Some?
    ensures |Replace(line, TypeMarker(line).value.0, "")| < |line|
  {
    var m := TypeMarker(line).value.0;
    ReplaceByEmptyLength(line, m);
    OccurrencesPositive(line, m);
  }
}
