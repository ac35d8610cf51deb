/**
 * The slice of java.lang.String (and of java.util.regex splitting) that the
 * retrieval engine relies on, written as Dafny functions over `string`.
 *
 * Java exceptions become the `Thrown` case of `Result`; a `System.exit` call
 * is the `Exit` failure, since it ends the run just like an uncaught exception.
 */
module JavaLang {

  datatype Option<+T> = None | Some(value: T)

  /** The ways a call into the core can end abruptly. */
  datatype Failure =
    | IndexOutOfBounds   // StringIndexOutOfBounds- or ArrayIndexOutOfBoundsException
    | NullPointer        // NullPointerException
    | NumberFormat       // NumberFormatException
    | ClassCast          // ClassCastException
    | Exit               // System.exit(...)

  datatype Result<+T> = Ok(value: T) | Thrown(failure: Failure)

  // ---------------------------------------------------------------------------
  // Characters
  // ---------------------------------------------------------------------------

  /** Lower-casing of one character; only ASCII letters change. */
  function LowerChar(c: char): (r: char)
    ensures 'A' <= c <= 'Z' ==> r as int == c as int + 32
    ensures !('A' <= c <= 'Z') ==> r == c
  {
    if 'A' <= c <= 'Z' then (c as int + 32) as char else c
  }

  /** `String.toLowerCase`, restricted to ASCII case folding. */
  function ToLower(s: string): (r: string)
    ensures |r| == |s|
    ensures forall i :: 0 <= i < |s| ==> r[i] == LowerChar(s[i])
  {
    if s == [] then [] else [LowerChar(s[0])] + ToLower(s[1..])
  }

  lemma {:induction false} ToLowerAppend(a: string, b: string)
    ensures ToLower(a + b) == ToLower(a) + ToLower(b)
  {
    var l, r := ToLower(a + b), ToLower(a) + ToLower(b);
    assert |l| == |r|;
    forall i | 0 <= i < |l| ensures l[i] == r[i] {
      if i < |a| { assert (a + b)[i] == a[i]; } else { assert (a + b)[i] == b[i - |a|]; }
    }
  }

  lemma ToLowerIdempotent(s: string)
    ensures ToLower(ToLower(s)) == ToLower(s)
  {
  }

  // ---------------------------------------------------------------------------
  // Searching
  // ---------------------------------------------------------------------------

  predicate StartsWith(s: string, p: string) {
    |p| <= |s| && s[..|p|] == p
  }

  predicate EndsWith(s: string, p: string) {
    |p| <= |s| && s[|s| - |p|..] == p
  }

  /** `s.contains(p)`: some position of `s` starts with `p`. */
  predicate Contains(s: string, p: string)
    decreases |s|
  {
    StartsWith(s, p) || (s != [] && Contains(s[1..], p))
  }

  lemma {:induction false} ContainsAt(s: string, p: string, i: nat)
    requires i + |p| <= |s| && s[i..i + |p|] == p
    ensures Contains(s, p)
  {
    if i > 0 {
      assert s[1..][i - 1..i - 1 + |p|] == s[i..i + |p|];
      ContainsAt(s[1..], p, i - 1);
    }
  }

  lemma {:induction false} ContainsWitness(s: string, p: string) returns (i: nat)
    requires Contains(s, p)
    ensures i + |p| <= |s| && s[i..i + |p|] == p
  {
    if StartsWith(s, p) {
      i := 0;
    } else {
      var j := ContainsWitness(s[1..], p);
      assert s[1..][j..j + |p|] == s[j + 1..j + 1 + |p|];
      i := j + 1;
    }
  }

  /** A one-character pattern is contained exactly when the character occurs. */
  lemma {:induction false} ContainsChar(s: string, c: char)
    ensures Contains(s, [c]) <==> c in s
  {
    if c in s {
      var i :| 0 <= i < |s| && s[i] == c;
      assert s[i..i + 1] == [c];
      ContainsAt(s, [c], i);
    }
    if Contains(s, [c]) {
      var i := ContainsWitness(s, [c]);
      assert s[i] == s[i..i + 1][0];
    }
  }

  /** `s.indexOf(c)`: the first position of `c`, or -1. */
  function IndexOf(s: string, c: char): (r: int)
    ensures -1 <= r < |s|
    ensures r == -1 <==> c !in s
    ensures r >= 0 ==> s[r] == c && c !in s[..r]
  {
    if s == [] then -1
    else if s[0] == c then 0
    else var k := IndexOf(s[1..], c); assert s[1..] == s[1..][..]; (if k == -1 then -1 else k + 1)
  }

  /** `s.lastIndexOf(c)`: the last position of `c`, or -1. */
  function LastIndexOf(s: string, c: char): (r: int)
    ensures -1 <= r < |s|
    ensures r == -1 <==> c !in s
    ensures r >= 0 ==> s[r] == c && forall j :: r < j < |s| ==> s[j] != c
  {
    if s == [] then -1
    else if s[|s| - 1] == c then |s| - 1
    else assert forall j :: 0 <= j < |s| - 1 ==> s[..|s| - 1][j] == s[j]; LastIndexOf(s[..|s| - 1], c)
  }

  /** `s.substring(b, e)`, which throws unless 0 <= b <= e <= |s|. */
  function Substring(s: string, b: int, e: int): (r: Result<string>)
    ensures r.Ok? <==> 0 <= b <= e <= |s|
    ensures r.Ok? ==> r.value == s[b..e]
  {
    if 0 <= b <= e <= |s| then Ok(s[b..e]) else Thrown(IndexOutOfBounds)
  }

  // ---------------------------------------------------------------------------
  // Literal replacement and occurrence counting
  // ---------------------------------------------------------------------------

  /**
   * `s.replace(p, r)` (and `Pattern.compile(p, LITERAL).matcher(s).replaceAll(r)`):
   * the string is scanned left to right and each occurrence of `p` that does
   * not overlap an earlier replaced one is replaced.
   */
  function Replace(s: string, p: string, r: string): string
    requires p != []
    decreases |s|
  {
    if |s| < |p| then s
    else if s[..|p|] == p then r + Replace(s[|p|..], p, r)
    else [s[0]] + Replace(s[1..], p, r)
  }

  /** The number of occurrences `Replace` replaces. */
  function Occurrences(s: string, p: string): nat
    requires p != []
    decreases |s|
  {
    if |s| < |p| then 0
    else if s[..|p|] == p then 1 + Occurrences(s[|p|..], p)
    else Occurrences(s[1..], p)
  }

  /** Deleting every occurrence shortens the string by |p| per occurrence. */
  lemma {:induction false} ReplaceByEmptyLength(s: string, p: string)
    requires p != []
    ensures |Replace(s, p, "")| == |s| - |p| * Occurrences(s, p)
    decreases |s|
  {
    if |s| < |p| {
    } else if s[..|p|] == p {
      var t := s[|p|..];
      ReplaceByEmptyLength(t, p);
      var n := Occurrences(t, p);
      assert Replace(s, p, "") == "" + Replace(t, p, "");
      assert Occurrences(s, p) == 1 + n;
      MulSucc(|p|, n);
    } else {
      var t := s[1..];
      ReplaceByEmptyLength(t, p);
      assert |Replace(s, p, "")| == 1 + |Replace(t, p, "")|;
      assert Occurrences(s, p) == Occurrences(t, p);
    }
  }

  /**
   * Text in which the first character of the pattern does not occur is
   * copied, and the scan starts over right after the occurrence that follows it.
   */
  lemma {:induction false} ReplaceAfterFree(a: string, p: string, r: string, b: string)
    requires p != [] && p[0] !in a
    ensures Replace(a + p + b, p, r) == a + r + Replace(b, p, r)
    decreases |a|
  {
    if a == [] {
      var s := p + b;
      assert a + p + b == s;
      assert s[..|p|] == p && s[|p|..] == b;
    } else {
      ReplaceSkipsFirst(a, p, r, b);
      ReplaceAfterFree(a[1..], p, r, b);
      assert a == [a[0]] + a[1..];
    }
  }

  /** A first character that cannot start the pattern is copied as it is. */
  lemma ReplaceSkipsFirst(a: string, p: string, r: string, b: string)
    requires p != [] && a != [] && a[0] != p[0]
    ensures Replace(a + p + b, p, r) == [a[0]] + Replace(a[1..] + p + b, p, r)
  {
    var s := a + p + b;
    assert s[0] == a[0];
    assert s[..|p|] != p by { assert s[..|p|][0] == s[0]; }
    assert s[1..] == a[1..] + p + b;
  }

  lemma MulSucc(a: nat, n: nat)
    ensures a * (1 + n) == a + a * n
  {
  }

  /** Replacement leaves a string alone exactly when there is nothing to replace. */
  lemma {:induction false} ReplaceAbsent(s: string, p: string, r: string)
    requires p != []
    requires !Contains(s, p)
    ensures Replace(s, p, r) == s
    decreases |s|
  {
    if |s| >= |p| {
      assert s[..|p|] != p;
      ReplaceAbsent(s[1..], p, r);
    }
  }

  /** There is at least one occurrence to count exactly when `s` contains `p`. */
  lemma {:induction false} OccurrencesPositive(s: string, p: string)
    requires p != []
    ensures Occurrences(s, p) > 0 <==> Contains(s, p)
    decreases |s|
  {
    if |s| < |p| {
      NotContainsShort(s, p);
    } else if s[..|p|] == p {
    } else {
      OccurrencesPositive(s[1..], p);
      if Contains(s[1..], p) {
        var j := ContainsWitness(s[1..], p);
        assert j + 1 + |p| <= |s|;
      }
    }
    if |s| >= |p| && s[..|p|] == p {
      assert StartsWith(s, p);
    }
  }

  lemma {:induction false} NotContainsShort(s: string, p: string)
    requires |s| < |p|
    ensures !Contains(s, p)
    decreases |s|
  {
    if s != [] { NotContainsShort(s[1..], p); }
  }

  // ---------------------------------------------------------------------------
  // Trimming
  // ---------------------------------------------------------------------------

  /** `String.trim`: every character up to U+0020 counts as white space. */
  predicate IsTrimmable(c: char) { c <= ' ' }

  function TrimStart(s: string): string
    decreases |s|
  {
    if s != [] && IsTrimmable(s[0]) then TrimStart(s[1..]) else s
  }

  function TrimEnd(s: string): string
    decreases |s|
  {
    if s != [] && IsTrimmable(s[|s| - 1]) then TrimEnd(s[..|s| - 1]) else s
  }

  function Trim(s: string): string {
    TrimEnd(TrimStart(s))
  }

  /** `TrimStart` cuts off a prefix of white space and stops at the first other character. */
  lemma {:induction false} TrimStartShape(s: string)
    ensures |TrimStart(s)| <= |s| && TrimStart(s) == s[|s| - |TrimStart(s)|..]
    ensures forall i :: 0 <= i < |s| - |TrimStart(s)| ==> IsTrimmable(s[i])
    ensures TrimStart(s) != [] ==> !IsTrimmable(TrimStart(s)[0])
    decreases |s|
  {
    if s != [] && IsTrimmable(s[0]) {
      TrimStartShape(s[1..]);
      assert forall i :: 1 <= i < |s| ==> s[1..][i - 1] == s[i];
    }
  }

  /** `TrimEnd` cuts off a suffix of white space and stops at the last other character. */
  lemma {:induction false} TrimEndShape(s: string)
    ensures |TrimEnd(s)| <= |s| && TrimEnd(s) == s[..|TrimEnd(s)|]
    ensures forall i :: |TrimEnd(s)| <= i < |s| ==> IsTrimmable(s[i])
    ensures TrimEnd(s) != [] ==> !IsTrimmable(TrimEnd(s)[|TrimEnd(s)| - 1])
    decreases |s|
  {
    if s != [] && IsTrimmable(s[|s| - 1]) {
      TrimEndShape(s[..|s| - 1]);
    }
  }

  /**
   * `trim` keeps one contiguous stretch of `s`, starting after the leading white
   * space, whose first and last characters are not white space.
   */
  lemma TrimShape(s: string)
    ensures var b := |s| - |TrimStart(s)|;
      0 <= b && b + |Trim(s)| <= |s| && Trim(s) == s[b..b + |Trim(s)|]
    ensures Trim(s) != [] ==> !IsTrimmable(Trim(s)[0]) && !IsTrimmable(Trim(s)[|Trim(s)| - 1])
  {
    TrimStartShape(s);
    TrimEndShape(TrimStart(s));
    var b := |s| - |TrimStart(s)|;
    assert TrimStart(s)[..|Trim(s)|] == s[b..b + |Trim(s)|];
  }

  // ---------------------------------------------------------------------------
  // Splitting
  // ---------------------------------------------------------------------------

  /** The first of the alternatives `ds` that `s` starts with, if any. */
  function MatchAt(s: string, ds: seq<string>): (r: Option<string>)
    ensures r.Some? ==> r.value in ds && StartsWith(s, r.value)
    ensures r.None? ==> forall d :: d in ds ==> !StartsWith(s, d)
  {
    if ds == [] then None
    else if StartsWith(s, ds[0]) then Some(ds[0])
    else MatchAt(s, ds[1..])
  }

  predicate NonEmptyAlternatives(ds: seq<string>) {
    forall i :: 0 <= i < |ds| ==> ds[i] != []
  }

  /**
   * The pieces between the matches of the regular expression `d1|d2|...`,
   * found the way java.util.regex finds them: scanning start positions left to
   * right and trying the alternatives in order. Nothing is dropped yet.
   */
  function Pieces(s: string, ds: seq<string>): (r: seq<string>)
    requires NonEmptyAlternatives(ds)
    ensures |r| >= 1
    decreases |s|
  {
    if s == [] then [""]
    else match MatchAt(s, ds)
      case Some(d) => [""] + Pieces(s[|d|..], ds)
      case None => var rest := Pieces(s[1..], ds); [[s[0]] + rest[0]] + rest[1..]
  }

  /** Drops the empty strings at the end of a list, as `String.split` does. */
  function DropTrailingEmpty(xs: seq<string>): (r: seq<string>)
    ensures |r| <= |xs| && r == xs[..|r|]
    ensures r != [] ==> r[|r| - 1] != ""
    ensures forall i :: |r| <= i < |xs| ==> xs[i] == ""
  {
    if xs == [] then []
    else if xs[|xs| - 1] == "" then DropTrailingEmpty(xs[..|xs| - 1])
    else xs
  }

  /**
   * `s.split(regex)` for a regular expression that is an alternation of
   * literals: no match at all gives `[s]` (so `""` gives `[""]`); otherwise the
   * pieces, without the empty ones at the end.
   */
  function Split(s: string, ds: seq<string>): seq<string>
    requires NonEmptyAlternatives(ds)
  {
    if s == [] then [""] else DropTrailingEmpty(Pieces(s, ds))
  }

  /** Text in which no alternative occurs is one single piece. */
  lemma {:induction false} PiecesWithoutMatch(s: string, ds: seq<string>)
    requires NonEmptyAlternatives(ds)
    requires forall i :: 0 <= i < |ds| ==> !Contains(s, ds[i])
    ensures Pieces(s, ds) == [s]
    decreases |s|
  {
    if s != [] {
      assert MatchAt(s, ds).None?;
      PiecesWithoutMatch(s[1..], ds);
      assert [s[0]] + s[1..] == s;
    }
  }

  /** ... so `split` hands it back unchanged. */
  lemma SplitWithoutMatch(s: string, ds: seq<string>)
    requires NonEmptyAlternatives(ds)
    requires forall i :: 0 <= i < |ds| ==> !Contains(s, ds[i])
    ensures Split(s, ds) == [s]
  {
    if s != [] {
      PiecesWithoutMatch(s, ds);
    }
  }

  /** With one single-character delimiter, a piece never contains that character. */
  lemma {:induction false} PiecesAvoidChar(s: string, c: char, k: nat)
    requires k < |Pieces(s, [[c]])|
    ensures c !in Pieces(s, [[c]])[k]
    decreases |s|
  {
    if s != [] {
      match MatchAt(s, [[c]])
      case Some(d) =>
        if k > 0 { PiecesAvoidChar(s[|d|..], c, k - 1); }
      case None =>
        assert s[0] != c by { assert !StartsWith(s, [c]); assert s[..1] == [s[0]]; }
        PiecesAvoidChar(s[1..], c, if k == 0 then 0 else k);
    }
  }

  /** Joins with a separator, as `String.join`. */
  function Join(xs: seq<string>, sep: string): (r: string)
    decreases |xs|
  {
    if xs == [] then ""
    else if |xs| == 1 then xs[0]
    else xs[0] + sep + Join(xs[1..], sep)
  }

  /** A stretch without the delimiter character only extends the first piece. */
  lemma {:induction false} PiecesAfterWord(w: string, c: char, t: string)
    requires c !in w
    ensures Pieces(w + t, [[c]]) == [w + Pieces(t, [[c]])[0]] + Pieces(t, [[c]])[1..]
    decreases |w|
  {
    if w != [] {
      var s := w + t;
      assert s[0] == w[0] && s[1..] == w[1..] + t;
      assert !StartsWith(s, [c]) by { assert s[..1] == [w[0]]; }
      PiecesAfterWord(w[1..], c, t);
      assert [w[0]] + (w[1..] + Pieces(t, [[c]])[0]) == w + Pieces(t, [[c]])[0];
    } else {
      var ps := Pieces(t, [[c]]);
      assert w + t == t && w + ps[0] == ps[0];
      assert ps == [ps[0]] + ps[1..];
    }
  }

  /** Splitting text joined at a character the words do not hold gives the words back. */
  lemma {:induction false} PiecesOfJoin(ws: seq<string>, c: char)
    requires ws != []
    requires forall i :: 0 <= i < |ws| ==> c !in ws[i]
    ensures Pieces(Join(ws, [c]), [[c]]) == ws
    decreases |ws|
  {
    if |ws| == 1 {
      PiecesAfterWord(ws[0], c, "");
      assert ws[0] + "" == ws[0];
    } else {
      var rest := Join(ws[1..], [c]);
      assert Join(ws, [c]) == ws[0] + ([c] + rest);
      PiecesAfterWord(ws[0], c, [c] + rest);
      var s := [c] + rest;
      assert StartsWith(s, [c]) by { assert s[..1] == [c]; }
      assert s[1..] == rest;
      PiecesOfJoin(ws[1..], c);
      assert Pieces(s, [[c]]) == [""] + ws[1..];
      assert ws[0] + "" == ws[0];
    }
  }

  /**
   * `split` at a single character undoes `join` at it, provided no word holds
   * the character and the last word is not empty (so nothing is dropped).
   */
  lemma SplitJoin(ws: seq<string>, c: char)
    requires |ws| >= 2 || (|ws| == 1 && ws[0] != "")
    requires forall i :: 0 <= i < |ws| ==> c !in ws[i]
    requires ws[|ws| - 1] != ""
    ensures Split(Join(ws, [c]), [[c]]) == ws
  {
    PiecesOfJoin(ws, c);
    JoinNotEmpty(ws, c);
  }

  lemma {:induction false} JoinNotEmpty(ws: seq<string>, c: char)
    requires ws != [] && ws[|ws| - 1] != ""
    ensures Join(ws, [c]) != ""
    decreases |ws|
  {
    if |ws| > 1 { JoinNotEmpty(ws[1..], c); }
  }

  // ---------------------------------------------------------------------------
  // 32-bit integers
  // ---------------------------------------------------------------------------

  const IntMin: int := -0x8000_0000
  const IntMax: int := 0x7fff_ffff

  predicate IsInt(x: int) { IntMin <= x <= IntMax }

  /** Two's-complement wrap-around of Java's `int` arithmetic. */
  function Wrap32(x: int): (r: int)
    ensures IsInt(r)
    ensures (r - x) % 0x1_0000_0000 == 0
    ensures IsInt(x) ==> r == x
  {
    (x - IntMin) % 0x1_0000_0000 + IntMin
  }
}
