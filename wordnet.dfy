/**
 * The synonym tables the WordNet study builds from the WordNet database
 * files (the `data.*` synset files and the `*.exc` exception lists, in the
 * layout of the wndb(5WN) manual page).
 *
 * The tables map a word to an `ArrayList` of words, and several keys (even
 * in different tables) can share one list, which later merges then grow for
 * all of them. The lists therefore live in one sequence `lists`, in the
 * order they are created, and a table maps a key to the position of its list
 * there: two keys share a list exactly when they hold the same position.
 */
module Wordnet {
  import opened JavaLang

  /** The four parts of speech, in the order the files are read: adj, adv, noun, verb. */
  const PartsOfSpeech: nat := 4

  /** `data.*` files start with a licence header of this many lines, all skipped. */
  const HeaderLines: nat := 29

  /**
   * The tables: every list created so far, the combined table `synSets`, the
   * per-part-of-speech tables `synSetsColl` and the exception table `excSets`.
   */
  datatype Store = Store(
    lists: seq<seq<string>>,
    synSets: map<string, nat>,
    coll: seq<map<string, nat>>,
    excSets: map<string, nat>)

  predicate RefsBelow(m: map<string, nat>, n: nat) {
    forall k :: k in m ==> m[k] < n
  }

  /** Every table entry refers to a list that exists. */
  predicate Valid(st: Store) {
    && |st.coll| == PartsOfSpeech
    && RefsBelow(st.synSets, |st.lists|)
    && (forall c :: 0 <= c < PartsOfSpeech ==> RefsBelow(st.coll[c], |st.lists|))
    && RefsBelow(st.excSets, |st.lists|)
  }

  /** The tables as `buildSynsets` creates them, before the first file. */
  function Initial(): (st: Store)
    ensures Valid(st)
  {
    Store([], map[], [map[], map[], map[], map[]], map[])
  }

  /** The words the combined table holds for `key`. */
  function Synonyms(st: Store, key: string): seq<string>
    requires Valid(st) && key in st.synSets
  {
    st.lists[st.synSets[key]]
  }

  // ---------------------------------------------------------------------------
  // Lists without duplicates
  // ---------------------------------------------------------------------------

  predicate Distinct(xs: seq<string>) {
    forall i, j :: 0 <= i < j < |xs| ==> xs[i] != xs[j]
  }

  /**
   * `for (x : xs) if (!cur.contains(x)) cur.add(x)`: each word not yet in the
   * list is appended, in order.
   */
  function AddAbsent(cur: seq<string>, xs: seq<string>): (r: seq<string>)
    ensures |cur| <= |r| && r[..|cur|] == cur
    ensures forall x :: x in r <==> x in cur || x in xs
    ensures forall i :: |cur| <= i < |r| ==> r[i] !in cur
    ensures Distinct(cur) ==> Distinct(r)
    decreases |xs|
  {
    if xs == [] then cur
    else
      var next := if xs[0] in cur then cur else cur + [xs[0]];
      var r := AddAbsent(next, xs[1..]);
      assert forall x :: x in xs <==> x == xs[0] || x in xs[1..] by { assert xs == [xs[0]] + xs[1..]; }
      assert r[..|cur|] == next[..|cur|] == cur;
      r
  }

  /** Merging words the list already holds changes nothing ... */
  lemma {:induction false} AddAbsentPresent(cur: seq<string>, xs: seq<string>)
    requires forall x :: x in xs ==> x in cur
    ensures AddAbsent(cur, xs) == cur
    decreases |xs|
  {
    if xs != [] {
      assert xs[0] in xs;
      assert forall x :: x in xs[1..] ==> x in xs;
      AddAbsentPresent(cur, xs[1..]);
    }
  }

  /** ... so merging the same words twice is merging them once. */
  lemma AddAbsentIdempotent(cur: seq<string>, xs: seq<string>)
    ensures AddAbsent(AddAbsent(cur, xs), xs) == AddAbsent(cur, xs)
  {
    AddAbsentPresent(AddAbsent(cur, xs), xs);
  }

  /** Each word appended differs from every word before it. */
  predicate AppendsNew(before: seq<string>, after: seq<string>) {
    forall i, j :: 0 <= i < j < |after| && |before| <= j ==> after[i] != after[j]
  }

  lemma AppendsNewTransitive(a: seq<string>, b: seq<string>, c: seq<string>)
    requires |a| <= |b| <= |c| && c[..|b|] == b
    requires AppendsNew(a, b) && AppendsNew(b, c)
    ensures AppendsNew(a, c)
  {
    forall i, j | 0 <= i < j < |c| && |a| <= j ensures c[i] != c[j] {
      if j < |b| { assert c[i] == b[i] && c[j] == b[j]; }
    }
  }

  lemma {:induction false} AddAbsentAppendsNew(cur: seq<string>, xs: seq<string>)
    ensures AppendsNew(cur, AddAbsent(cur, xs))
    decreases |xs|
  {
    if xs != [] {
      var next := if xs[0] in cur then cur else cur + [xs[0]];
      AddAbsentAppendsNew(next, xs[1..]);
      assert AppendsNew(cur, next);
      AppendsNewTransitive(cur, next, AddAbsent(cur, xs));
    }
  }

  // ---------------------------------------------------------------------------
  // Tokens of a line
  // ---------------------------------------------------------------------------

  /** Multi-word collocations such as `ice_cream` are left out. */
  predicate IsCollocation(token: string) { Contains(token, "_") }

  /**
   * The syntactic markers of adjectives, `(p)`, `(a)` and `(ip)`, are cut off
   * the end of a word.
   */
  function StripMarker(token: string): (r: string)
    ensures EndsWith(token, "(p)") || EndsWith(token, "(a)") ==> r == token[..|token| - 3]
    ensures !(EndsWith(token, "(p)") || EndsWith(token, "(a)")) && EndsWith(token, "(ip)")
      ==> r == token[..|token| - 4]
    ensures !EndsWith(token, "(p)") && !EndsWith(token, "(a)") && !EndsWith(token, "(ip)") ==> r == token
    ensures r <= token
  {
    if EndsWith(token, "(p)") || EndsWith(token, "(a)") then token[..|token| - 3]
    else if EndsWith(token, "(ip)") then token[..|token| - 4]
    else token
  }

  /** The tokens that are kept, without their markers, in order. */
  function KeptWords(tokens: seq<string>): (r: seq<string>)
    ensures |r| <= |tokens|
    ensures forall w :: w in r <==> exists t :: t in tokens && !IsCollocation(t) && w == StripMarker(t)
    decreases |tokens|
  {
    if tokens == [] then []
    else
      var rest := KeptWords(tokens[1..]);
      assert forall t :: t in tokens <==> t == tokens[0] || t in tokens[1..] by { assert tokens == [tokens[0]] + tokens[1..]; }
      (if IsCollocation(tokens[0]) then [] else [StripMarker(tokens[0])]) + rest
  }

  /** The value of a hexadecimal digit, or -1. */
  function HexDigit(c: char): (d: int)
    ensures -1 <= d < 16
  {
    if '0' <= c <= '9' then c as int - '0' as int
    else if 'a' <= c <= 'f' then c as int - 'a' as int + 10
    else if 'A' <= c <= 'F' then c as int - 'A' as int + 10
    else -1
  }

  predicate AllHex(s: string) {
    forall i :: 0 <= i < |s| ==> HexDigit(s[i]) >= 0
  }

  function HexValue(s: string): (v: nat)
    requires AllHex(s)
    decreases |s|
  {
    if s == [] then 0 else HexValue(s[..|s| - 1]) * 16 + HexDigit(s[|s| - 1])
  }

  /**
   * `Integer.parseInt(s, 16)`: an optional sign and at least one hex digit,
   * whose value must fit in an `int`; anything else is a format error.
   */
  function ParseHexInt(s: string): (r: Result<int>)
    ensures r.Ok? ==> IsInt(r.value)
    ensures r.Thrown? ==> r.failure == NumberFormat
    ensures s == [] ==> r.Thrown?
  {
    if s == [] then Thrown(NumberFormat)
    else
      var signed := s[0] == '-' || s[0] == '+';
      var digits := if signed then s[1..] else s;
      if digits == [] || !AllHex(digits) then Thrown(NumberFormat)
      else
        var v: int := if s[0] == '-' then -(HexValue(digits) as int) else HexValue(digits);
        if IsInt(v) then Ok(v) else Thrown(NumberFormat)
  }

  /**
   * The loop bound `2 * (synNum - 1)` in `int` arithmetic, and the number of
   * even positions below it the loop visits.
   */
  function WordCountBound(wCnt: int): int
    requires IsInt(wCnt)
  {
    Wrap32(2 * Wrap32(wCnt - 1))
  }

  function Visits(bound: int): (n: nat) {
    if bound <= 0 then 0 else (bound + 1) / 2
  }

  /** For a word count between 1 and 2^30 the loop visits the other `w_cnt - 1` words. */
  lemma VisitsWordCount(wCnt: int)
    requires 1 <= wCnt <= 0x4000_0000
    ensures Visits(WordCountBound(wCnt)) == wCnt - 1
  {
  }

  /**
   * Fields 6, 8, 10, ...: the words after the headword (every second field, the
   * ones in between being lexical ids). Reading past the end of the line throws.
   */
  function OtherWordFields(tokens: seq<string>, visits: nat): (r: Result<seq<string>>)
    ensures r.Ok? <==> visits == 0 || 6 + 2 * (visits - 1) < |tokens|
    ensures r.Thrown? ==> r.failure == IndexOutOfBounds
    ensures r.Ok? ==> |r.value| == visits && forall k :: 0 <= k < visits ==> r.value[k] == tokens[6 + 2 * k]
  {
    if visits == 0 || 6 + 2 * (visits - 1) < |tokens| then Ok(EveryOther(tokens, visits))
    else Thrown(IndexOutOfBounds)
  }

  /** The first `c` of fields 6, 8, 10, ... */
  function EveryOther(tokens: seq<string>, c: nat): (r: seq<string>)
    requires c == 0 || 6 + 2 * (c - 1) < |tokens|
    ensures |r| == c && forall k :: 0 <= k < c ==> r[k] == tokens[6 + 2 * k]
  {
    seq(c, k requires 0 <= k < c => tokens[6 + 2 * k])
  }

  lemma EveryOtherSnoc(tokens: seq<string>, c: nat)
    requires 6 + 2 * c < |tokens|
    ensures EveryOther(tokens, c + 1) == EveryOther(tokens, c) + [tokens[6 + 2 * c]]
  {
  }

  /** What a `data.*` line yields: the headword and its kept synonyms, or nothing for a collocation. */
  datatype Synset = Synset(headword: string, words: seq<string>)

  /**
   * Field 4 is the headword, field 3 its word count in hexadecimal (an unparsable
   * count ends the program), and the synonyms are the kept other words. A line
   * with fewer fields throws when a field is read.
   */
  function ParseDataLine(line: string): (r: Result<Option<Synset>>)
    ensures var tokens := Split(line, [" "]);
      |tokens| < 5 ==> r == Thrown(IndexOutOfBounds)
    ensures var tokens := Split(line, [" "]);
      |tokens| >= 5 && ParseHexInt(tokens[3]).Thrown? ==> r == Thrown(Exit)
    ensures var tokens := Split(line, [" "]);
      r.Ok? && r.value.Some? ==> r.value.value.headword == tokens[4] && !IsCollocation(tokens[4])
    ensures var tokens := Split(line, [" "]);
      r.Ok? && r.value.None? <==> |tokens| >= 5 && ParseHexInt(tokens[3]).Ok? && IsCollocation(tokens[4])
  {
    var tokens := Split(line, [" "]);
    if |tokens| < 5 then Thrown(IndexOutOfBounds)
    else
      var headword := tokens[4];
      match ParseHexInt(tokens[3])
      case Thrown(_) => Thrown(Exit)
      case Ok(wCnt) =>
        if IsCollocation(headword) then Ok(None)
        else match OtherWordFields(tokens, Visits(WordCountBound(wCnt)))
          case Thrown(f) => Thrown(f)
          case Ok(others) => Ok(Some(Synset(headword, KeptWords(others))))
  }

  // ---------------------------------------------------------------------------
  // Table updates
  // ---------------------------------------------------------------------------

  /** Merges `xs` into the list at position `ref`. */
  function Merge(st: Store, ref: nat, xs: seq<string>): (r: Store)
    requires Valid(st) && ref < |st.lists|
    ensures Valid(r)
  {
    st.(lists := st.lists[ref := AddAbsent(st.lists[ref], xs)])
  }

  /** Tables only grow: lists keep their words, keys keep their lists. */
  predicate Grows(st: Store, st': Store)
    requires Valid(st) && Valid(st')
  {
    && |st.lists| <= |st'.lists|
    && (forall r :: 0 <= r < |st.lists| ==> st.lists[r] <= st'.lists[r])
    && (forall k :: k in st.synSets ==> k in st'.synSets && st'.synSets[k] == st.synSets[k])
  }

  lemma GrowsTransitive(a: Store, b: Store, c: Store)
    requires Valid(a) && Valid(b) && Valid(c)
    requires Grows(a, b) && Grows(b, c)
    ensures Grows(a, c)
  {
    forall r | 0 <= r < |a.lists| ensures a.lists[r] <= c.lists[r] {
      assert a.lists[r] <= b.lists[r] <= c.lists[r];
    }
  }

  lemma MergeGrows(st: Store, ref: nat, xs: seq<string>)
    requires Valid(st) && ref < |st.lists|
    ensures Grows(st, Merge(st, ref, xs))
  {
  }

  /**
   * The headword's entry: a headword new to the combined table gets the synonym
   * list itself, in the combined table and in its part-of-speech table (one
   * shared list); a known headword has the synonyms merged into its list, and
   * into its part-of-speech list when that table knows the headword.
   */
  function AddHeadword(st: Store, pos: nat, headword: string, words: seq<string>): (r: Store)
    requires Valid(st) && pos < PartsOfSpeech
    ensures Valid(r) && Grows(st, r)
    ensures headword in r.synSets && forall w :: w in words ==> w in Synonyms(r, headword)
  {
    if headword !in st.synSets then
      var ref: nat := |st.lists|;
      var table: map<string, nat> := st.coll[pos][headword := ref];
      st.(lists := st.lists + [words], synSets := st.synSets[headword := ref], coll := st.coll[pos := table])
    else
      var st1 := Merge(st, st.synSets[headword], words);
      MergeGrows(st, st.synSets[headword], words);
      if headword in st1.coll[pos] then
        var r := Merge(st1, st1.coll[pos][headword], words);
        MergeGrows(st1, st1.coll[pos][headword], words);
        GrowsTransitive(st, st1, r);
        assert Synonyms(st1, headword) <= Synonyms(r, headword);
        r
      else st1
  }

  /** The words at every position but `j`. */
  function AllBut(words: seq<string>, j: nat): (r: seq<string>)
    requires j < |words|
    ensures |r| == |words| - 1
    ensures forall k :: 0 <= k < |words| && k != j ==> words[k] in r
    ensures forall w :: w in r ==> w in words
  {
    var r := words[..j] + words[j + 1..];
    assert forall k :: 0 <= k < j ==> r[k] == words[k];
    assert forall k :: j < k < |words| ==> r[k - 1] == words[k];
    r
  }

  /**
   * Each synonym `words[j]` gets an entry holding the headword and the other
   * synonyms: merged into its list when it has one, a new list otherwise.
   */
  function LinkFrom(st: Store, headword: string, words: seq<string>, j: nat): (r: Store)
    requires Valid(st) && j <= |words|
    ensures Valid(r) && Grows(st, r)
    decreases |words| - j
  {
    if j == |words| then st
    else
      var st1 := LinkOne(st, headword, words, j);
      var r := LinkFrom(st1, headword, words, j + 1);
      GrowsTransitive(st, st1, r);
      r
  }

  /** The entry of synonym `words[j]`: merged into its list when it has one, a new list otherwise. */
  function LinkOne(st: Store, headword: string, words: seq<string>, j: nat): (r: Store)
    requires Valid(st) && j < |words|
    ensures Valid(r) && Grows(st, r)
    ensures words[j] in r.synSets
    ensures forall x :: x in [headword] + AllBut(words, j) ==> x in Synonyms(r, words[j])
  {
    var entry := [headword] + AllBut(words, j);
    if words[j] in st.synSets then Merge(st, st.synSets[words[j]], entry)
    else st.(lists := st.lists + [entry], synSets := st.synSets[words[j] := |st.lists|])
  }

  /** One line of `data.*` file number `pos`. */
  function DataLine(st: Store, pos: nat, line: string): (r: Result<Store>)
    requires Valid(st) && pos < PartsOfSpeech
    ensures r.Ok? ==> Valid(r.value) && Grows(st, r.value)
  {
    match ParseDataLine(line)
    case Thrown(f) => Thrown(f)
    case Ok(None) => Ok(st)
    case Ok(Some(s)) => Ok(LinkFrom(AddHeadword(st, pos, s.headword, s.words), s.headword, s.words, 0))
  }

  /** The lines of a `data.*` file in order, stopping at the first that throws. */
  function DataLines(st: Store, pos: nat, lines: seq<string>): (r: Result<Store>)
    requires Valid(st) && pos < PartsOfSpeech
    ensures r.Ok? ==> Valid(r.value)
    decreases |lines|
  {
    if lines == [] then Ok(st)
    else match DataLine(st, pos, lines[0])
      case Thrown(f) => Thrown(f)
      case Ok(st1) => DataLines(st1, pos, lines[1..])
  }

  /** A file that cannot be read ends the program; the header lines are skipped. */
  function DataFile(st: Store, pos: nat, file: Option<seq<string>>): (r: Result<Store>)
    requires Valid(st) && pos < PartsOfSpeech
    ensures r.Ok? ==> Valid(r.value)
  {
    match file
    case None => Thrown(Exit)
    case Some(lines) => DataLines(st, pos, if |lines| <= HeaderLines then [] else lines[HeaderLines..])
  }

  // ---------------------------------------------------------------------------
  // Exception lists
  // ---------------------------------------------------------------------------

  /**
   * The synonyms of every token of the line (the inflected form included)
   * that the part-of-speech table knows, merged into `words`.
   */
  function CollectFrom(st: Store, pos: nat, tokens: seq<string>, words: seq<string>, j: nat): (r: seq<string>)
    requires Valid(st) && pos < PartsOfSpeech && j <= |tokens|
    ensures |words| <= |r| && r[..|words|] == words
    ensures forall x :: x in r <==> (x in words ||
      exists k :: j <= k < |tokens| && tokens[k] in st.coll[pos] && x in st.lists[st.coll[pos][tokens[k]]])
    ensures forall i :: |words| <= i < |r| ==> r[i] !in words
    decreases |tokens| - j
  {
    if j == |tokens| then words
    else
      var next := if tokens[j] in st.coll[pos] then AddAbsent(words, st.lists[st.coll[pos][tokens[j]]]) else words;
      var r := CollectFrom(st, pos, tokens, next, j + 1);
      assert r[..|words|] == next[..|words|] == words;
      r
  }

  /** One step of the walk over the exception line. */
  lemma CollectStep(st: Store, pos: nat, tokens: seq<string>, words: seq<string>, j: nat)
    requires Valid(st) && pos < PartsOfSpeech && j < |tokens|
    ensures CollectFrom(st, pos, tokens, words, j) ==
      CollectFrom(st, pos, tokens, if tokens[j] in st.coll[pos] then AddAbsent(words, st.lists[st.coll[pos][tokens[j]]]) else words, j + 1)
  {
  }

  lemma {:induction false} CollectAppendsNew(st: Store, pos: nat, tokens: seq<string>, words: seq<string>, j: nat)
    requires Valid(st) && pos < PartsOfSpeech && j <= |tokens|
    ensures AppendsNew(words, CollectFrom(st, pos, tokens, words, j))
    decreases |tokens| - j
  {
    if j < |tokens| {
      var next := if tokens[j] in st.coll[pos] then AddAbsent(words, st.lists[st.coll[pos][tokens[j]]]) else words;
      if tokens[j] in st.coll[pos] { AddAbsentAppendsNew(words, st.lists[st.coll[pos][tokens[j]]]); }
      CollectAppendsNew(st, pos, tokens, next, j + 1);
      AppendsNewTransitive(words, next, CollectFrom(st, pos, tokens, words, j));
    }
  }

  /**
   * One line of an `*.exc` file: an inflected form and its base forms. The
   * entry of the inflected form collects the kept base forms and every
   * synonym of any token of the line, merged into an existing entry.
   */
  function ExcLine(st: Store, pos: nat, line: string): (r: Result<Store>)
    requires Valid(st) && pos < PartsOfSpeech
    ensures r.Ok? ==> Valid(r.value)
  {
    var tokens := Split(line, [" "]);
    if tokens == [] then Thrown(IndexOutOfBounds)
    else if IsCollocation(tokens[0]) then Ok(st)
    else
      var exceptions := CollectFrom(st, pos, tokens, KeptWords(tokens[1..]), 0);
      if tokens[0] in st.excSets then
        var ref := st.excSets[tokens[0]];
        Ok(st.(lists := st.lists[ref := AddAbsent(st.lists[ref], exceptions)]))
      else
        Ok(st.(lists := st.lists + [exceptions], excSets := st.excSets[tokens[0] := |st.lists|]))
  }

  function ExcLines(st: Store, pos: nat, lines: seq<string>): (r: Result<Store>)
    requires Valid(st) && pos < PartsOfSpeech
    ensures r.Ok? ==> Valid(r.value)
    decreases |lines|
  {
    if lines == [] then Ok(st)
    else match ExcLine(st, pos, lines[0])
      case Thrown(f) => Thrown(f)
      case Ok(st1) => ExcLines(st1, pos, lines[1..])
  }

  function ExcFile(st: Store, pos: nat, file: Option<seq<string>>): (r: Result<Store>)
    requires Valid(st) && pos < PartsOfSpeech
    ensures r.Ok? ==> Valid(r.value)
  {
    match file
    case None => Thrown(Exit)
    case Some(lines) => ExcLines(st, pos, lines)
  }

  // ---------------------------------------------------------------------------
  // The whole build
  // ---------------------------------------------------------------------------

  /** The `data.*` files from number `pos` on. */
  function DataFilesFrom(st: Store, files: seq<Option<seq<string>>>, pos: nat): (r: Result<Store>)
    requires Valid(st) && |files| == 2 * PartsOfSpeech && pos <= PartsOfSpeech
    ensures r.Ok? ==> Valid(r.value)
    decreases PartsOfSpeech - pos
  {
    if pos == PartsOfSpeech then Ok(st)
    else match DataFile(st, pos, files[pos])
      case Thrown(f) => Thrown(f)
      case Ok(st1) => DataFilesFrom(st1, files, pos + 1)
  }

  /** The `*.exc` files from number `pos` on; file `4 + p` uses part-of-speech table `p`. */
  function ExcFilesFrom(st: Store, files: seq<Option<seq<string>>>, pos: nat): (r: Result<Store>)
    requires Valid(st) && |files| == 2 * PartsOfSpeech && pos <= PartsOfSpeech
    ensures r.Ok? ==> Valid(r.value)
    decreases PartsOfSpeech - pos
  {
    if pos == PartsOfSpeech then Ok(st)
    else match ExcFile(st, pos, files[PartsOfSpeech + pos])
      case Thrown(f) => Thrown(f)
      case Ok(st1) => ExcFilesFrom(st1, files, pos + 1)
  }

  /**
   * After the last file the exception entries are put over the combined
   * table, the part-of-speech tables are emptied and the exception table is
   * dropped.
   */
  function Finish(st: Store): (r: Store)
    requires Valid(st)
    ensures Valid(r)
  {
    Store(st.lists, st.synSets + st.excSets, [map[], map[], map[], map[]], map[])
  }

  /**
   * `buildSynsets` over the contents of `data.adj`, `data.adv`, `data.noun`,
   * `data.verb`, `adj.exc`, `adv.exc`, `noun.exc` and `verb.exc`, in that
   * order (`None` for a file that cannot be read).
   */
  function Build(files: seq<Option<seq<string>>>): (r: Result<Store>)
    requires |files| == 2 * PartsOfSpeech
    ensures r.Ok? ==> Valid(r.value)
  {
    match DataFilesFrom(Initial(), files, 0)
    case Thrown(f) => Thrown(f)
    case Ok(st) =>
      match ExcFilesFrom(st.(excSets := map[]), files, 0)
      case Thrown(f) => Thrown(f)
      case Ok(st1) => Ok(Finish(st1))
  }

  // ---------------------------------------------------------------------------
  // Properties
  // ---------------------------------------------------------------------------

  /** Cutting a marker off a word appended with it gives the word back. */
  lemma StripMarkerAppended(w: string)
    ensures StripMarker(w + "(p)") == w && StripMarker(w + "(a)") == w && StripMarker(w + "(ip)") == w
  {
    var p, a, ip := w + "(p)", w + "(a)", w + "(ip)";
    assert p[|p| - 3..] == "(p)" && p[..|p| - 3] == w;
    assert a[|a| - 3..] == "(a)" && a[..|a| - 3] == w;
    assert ip[|ip| - 4..] == "(ip)" && ip[..|ip| - 4] == w;
    assert ip[|ip| - 3..] == "ip)";
  }

  /** The two-digit word counts of the data files read as hexadecimal numbers. */
  lemma ParseTwoHexDigits(s: string)
    requires |s| == 2 && AllHex(s)
    ensures ParseHexInt(s) == Ok(16 * HexDigit(s[0]) + HexDigit(s[1]))
  {
    assert s[0] != '-' && s[0] != '+';
    var first := s[..1];
    assert first[..0] == [] && first[0] == s[0];
    assert HexValue(first) == HexDigit(s[0]);
    assert HexValue(s) == HexValue(first) * 16 + HexDigit(s[1]);
  }

  /**
   * For a line with a word count `n` between 1 and 2^30 and all its fields
   * present, the synonyms are the kept words of fields 6, 8, ..., 2(n-1)+4.
   */
  lemma DataLineLayout(line: string, n: int)
    requires var tokens := Split(line, [" "]);
      |tokens| >= 5 && ParseHexInt(tokens[3]) == Ok(n) && !IsCollocation(tokens[4])
    requires 1 <= n <= 0x4000_0000
    requires n == 1 || 2 * (n - 1) + 4 < |Split(line, [" "])|
    ensures var tokens := Split(line, [" "]);
      ParseDataLine(line)
      == Ok(Some(Synset(tokens[4], KeptWords(seq(n - 1, k requires 0 <= k < n - 1 => tokens[6 + 2 * k])))))
  {
    VisitsWordCount(n);
  }

  /** What a table holds only grows. */
  lemma GrowsKeeps(st: Store, st': Store, key: string, x: string)
    requires Valid(st) && Valid(st') && Grows(st, st')
    requires key in st.synSets && x in Synonyms(st, key)
    ensures key in st'.synSets && x in Synonyms(st', key)
  {
    var i :| 0 <= i < |Synonyms(st, key)| && Synonyms(st, key)[i] == x;
    assert Synonyms(st', key)[i] == x;
  }

  /** The entry of every synonym from position `j` on holds the headword and the other synonyms. */
  lemma {:induction false} LinkFromLinks(st: Store, headword: string, words: seq<string>, j: nat)
    requires Valid(st) && j <= |words|
    ensures var r := LinkFrom(st, headword, words, j);
      forall i :: j <= i < |words| ==>
        words[i] in r.synSets && headword in Synonyms(r, words[i]) &&
        forall k :: 0 <= k < |words| && k != i ==> words[k] in Synonyms(r, words[i])
    decreases |words| - j
  {
    if j < |words| {
      var entry := [headword] + AllBut(words, j);
      var st1 := LinkOne(st, headword, words, j);
      var r := LinkFrom(st1, headword, words, j + 1);
      assert r == LinkFrom(st, headword, words, j);
      LinkFromLinks(st1, headword, words, j + 1);
      forall x | x in entry ensures x in Synonyms(r, words[j]) {
        GrowsKeeps(st1, r, words[j], x);
      }
      assert headword in entry;
    }
  }

  /**
   * After a data line, the headword's entry holds every kept synonym, and
   * each synonym's entry holds the headword and the other synonyms.
   */
  lemma DataLineLinks(st: Store, pos: nat, line: string)
    requires Valid(st) && pos < PartsOfSpeech
    requires ParseDataLine(line).Ok? && ParseDataLine(line).value.Some?
    ensures var s := ParseDataLine(line).value.value;
      var r := DataLine(st, pos, line).value;
      && s.headword in r.synSets
      && (forall w :: w in s.words ==> w in Synonyms(r, s.headword))
      && (forall i :: 0 <= i < |s.words| ==>
            s.words[i] in r.synSets && s.headword in Synonyms(r, s.words[i]) &&
            forall k :: 0 <= k < |s.words| && k != i ==> s.words[k] in Synonyms(r, s.words[i]))
  {
    var s := ParseDataLine(line).value.value;
    var st1 := AddHeadword(st, pos, s.headword, s.words);
    var r := LinkFrom(st1, s.headword, s.words, 0);
    LinkFromLinks(st1, s.headword, s.words, 0);
    forall w | w in s.words ensures w in Synonyms(r, s.headword) {
      GrowsKeeps(st1, r, s.headword, w);
    }
  }

  /** The list at `ref` is the synonym list, and only the headword's entry points at it. */
  predicate OwnList(st: Store, ref: nat, headword: string, words: seq<string>)
    requires Valid(st)
  {
    && ref < |st.lists| && st.lists[ref] == words
    && forall k :: k in st.synSets && st.synSets[k] == ref ==> k == headword
  }

  /**
   * When the headword is new, its entry is the very list of synonyms the
   * linking loop walks, and linking may merge into that list (when a
   * synonym equals the headword). It only merges words the list already
   * holds, so the list the loop walks never changes under it.
   */
  lemma {:induction false} LinkKeepsOwnList(st: Store, ref: nat, headword: string, words: seq<string>, j: nat)
    requires Valid(st) && j <= |words| && OwnList(st, ref, headword, words)
    ensures OwnList(LinkFrom(st, headword, words, j), ref, headword, words)
    decreases |words| - j
  {
    if j < |words| {
      var entry := [headword] + AllBut(words, j);
      var st1 := LinkOne(st, headword, words, j);
      if words[j] in st.synSets && st.synSets[words[j]] == ref {
        assert words[j] == headword;
        assert forall x :: x in entry ==> x in words;
        AddAbsentPresent(words, entry);
      }
      assert OwnList(st1, ref, headword, words);
      LinkKeepsOwnList(st1, ref, headword, words, j + 1);
    }
  }

  lemma DataLineOwnList(st: Store, pos: nat, headword: string, words: seq<string>)
    requires Valid(st) && pos < PartsOfSpeech && headword !in st.synSets
    ensures var st1 := AddHeadword(st, pos, headword, words);
      OwnList(LinkFrom(st1, headword, words, 0), |st.lists|, headword, words)
  {
    LinkKeepsOwnList(AddHeadword(st, pos, headword, words), |st.lists|, headword, words, 0);
  }

  /**
   * After an exception line, the entry of its inflected form holds its kept
   * base forms and every synonym that the part-of-speech table lists for any
   * token of the line; every word added to the entry was not in it before.
   */
  lemma ExcLineEntry(st: Store, pos: nat, line: string)
    requires Valid(st) && pos < PartsOfSpeech
    requires var tokens := Split(line, [" "]); tokens != [] && !IsCollocation(tokens[0])
    ensures var tokens := Split(line, [" "]);
      var r := ExcLine(st, pos, line);
      && r.Ok? && tokens[0] in r.value.excSets
      && var entry := r.value.lists[r.value.excSets[tokens[0]]];
      && (forall w :: w in KeptWords(tokens[1..]) ==> w in entry)
      && (forall k, x :: 0 <= k < |tokens| && tokens[k] in st.coll[pos] && x in st.lists[st.coll[pos][tokens[k]]]
            ==> x in entry)
      && (tokens[0] in st.excSets ==>
            var before := st.lists[st.excSets[tokens[0]]];
            |before| <= |entry| && entry[..|before|] == before && AppendsNew(before, entry))
  {
    var tokens := Split(line, [" "]);
    var exceptions := CollectFrom(st, pos, tokens, KeptWords(tokens[1..]), 0);
    if tokens[0] in st.excSets {
      AddAbsentAppendsNew(st.lists[st.excSets[tokens[0]]], exceptions);
    }
  }

  /** `putAll`: an exception entry replaces the synset entry with the same key. */
  lemma ExceptionsOverride(st: Store, key: string)
    requires Valid(st)
    ensures key in Finish(st).synSets <==> key in st.synSets || key in st.excSets
    ensures key in st.excSets ==> Finish(st).synSets[key] == st.excSets[key]
    ensures key !in st.excSets && key in st.synSets ==> Finish(st).synSets[key] == st.synSets[key]
    ensures forall c :: 0 <= c < PartsOfSpeech ==> Finish(st).coll[c] == map[]
  {
  }

  /**
   * Exactly the first 29 lines of a data file are skipped: whatever they
   * hold, the outcome is that of the lines after them.
   */
  lemma DataFileSkipsHeader(st: Store, pos: nat, header: seq<string>, body: seq<string>)
    requires Valid(st) && pos < PartsOfSpeech && |header| == HeaderLines
    ensures DataFile(st, pos, Some(header + body)) == DataLines(st, pos, body)
  {
    assert (header + body)[HeaderLines..] == body;
  }

  /** Kept tokens of a longer list: the kept tokens so far, then the next one if kept. */
  lemma {:induction false} KeptWordsSnoc(tokens: seq<string>, t: string)
    ensures KeptWords(tokens + [t]) == KeptWords(tokens) + (if IsCollocation(t) then [] else [StripMarker(t)])
    decreases |tokens|
  {
    if tokens == [] {
      assert tokens + [t] == [t];
    } else {
      assert (tokens + [t])[0] == tokens[0] && (tokens + [t])[1..] == tokens[1..] + [t];
      KeptWordsSnoc(tokens[1..], t);
    }
  }

  /** The sum of the list sizes over a set of keys. */
  ghost function TotalSize(st: Store, keys: set<string>): nat
    requires Valid(st) && keys <= st.synSets.Keys
  {
    if keys == {} then 0
    else var k :| k in keys; |Synonyms(st, k)| + TotalSize(st, keys - {k})
  }

  /** The sum does not depend on the key picked first. */
  lemma TotalSizeRemove(st: Store, keys: set<string>, k: string)
    requires Valid(st) && keys <= st.synSets.Keys && k in keys
    ensures TotalSize(st, keys) == |Synonyms(st, k)| + TotalSize(st, keys - {k})
    decreases |keys|
  {
    var k' :| k' in keys && TotalSize(st, keys) == |Synonyms(st, k')| + TotalSize(st, keys - {k'});
    if k' != k {
      TotalSizeRemove(st, keys - {k'}, k);
      TotalSizeRemove(st, keys - {k}, k');
      assert keys - {k'} - {k} == keys - {k} - {k'};
    }
  }

  // ---------------------------------------------------------------------------
  // The builder
  // ---------------------------------------------------------------------------

  /** A run of the builder ends as the specification says: normally with its tables, or with its failure. */
  predicate Completes(spec: Result<Store>, st: Store, thrown: Option<Failure>) {
    match spec
    case Ok(v) => thrown == None && st == v
    case Thrown(f) => thrown == Some(f)
  }

  /** The merge loop over a list that is not yet in a table. */
  method AppendAbsent(cur: seq<string>, xs: seq<string>) returns (r: seq<string>)
    ensures r == AddAbsent(cur, xs)
  {
    r := cur;
    for i := 0 to |xs|
      invariant AddAbsent(r, xs[i..]) == AddAbsent(cur, xs)
    {
      assert xs[i..][0] == xs[i] && xs[i..][1..] == xs[i + 1..];
      if xs[i] !in r {
        r := r + [xs[i]];
      }
    }
    assert xs[|xs|..] == [];
  }

  /** The entry of synonym `j`: the headword, then every other synonym in order. */
  method EntryFor(headword: string, words: seq<string>, j: nat) returns (entry: seq<string>)
    requires j < |words|
    ensures entry == [headword] + AllBut(words, j)
  {
    entry := [headword];
    for k := 0 to |words|
      invariant entry == [headword] + (if k <= j then words[..k] else words[..j] + words[j + 1..k])
    {
      if k != j {
        entry := entry + [words[k]];
        assert (if k + 1 <= j then words[..k + 1] else words[..j] + words[j + 1..k + 1])
          == (if k <= j then words[..k] else words[..j] + words[j + 1..k]) + [words[k]];
      }
    }
  }

  /**
   * The loop over fields 6, 8, ... of a data line: a collocation is skipped,
   * a marker cut off, and a field past the end of the line throws.
   */
  method ReadSynonyms(tokens: seq<string>, wCnt: int) returns (r: Result<seq<string>>)
    requires IsInt(wCnt)
    ensures r == (match OtherWordFields(tokens, Visits(WordCountBound(wCnt)))
                  case Thrown(f) => Thrown(f)
                  case Ok(others) => Ok(KeptWords(others)))
  {
    var bound := Wrap32(2 * Wrap32(wCnt - 1));
    ghost var n := Visits(bound);
    ghost var c: nat := 0;
    var synonyms: seq<string> := [];
    var j := 0;
    while j < bound
      invariant j == 2 * c && c <= n
      invariant j < bound ==> c < n
      invariant c == n ==> j >= bound
      invariant c == 0 || 6 + 2 * (c - 1) < |tokens|
      invariant synonyms == KeptWords(EveryOther(tokens, c))
    {
      if j + 6 >= |tokens| {
        return Thrown(IndexOutOfBounds);
      }
      EveryOtherSnoc(tokens, c);
      KeptWordsSnoc(EveryOther(tokens, c), tokens[j + 6]);
      var curToken := tokens[j + 6];
      if !IsCollocation(curToken) {
        synonyms := synonyms + [StripMarker(curToken)];
      }
      j := j + 2;
      c := c + 1;
    }
    return Ok(synonyms);
  }

  /** The kept base forms of an exception line, tokens 1 onwards. */
  method ReadExceptions(tokens: seq<string>) returns (exceptions: seq<string>)
    requires tokens != []
    ensures exceptions == KeptWords(tokens[1..])
  {
    exceptions := [];
    for j := 1 to |tokens|
      invariant exceptions == KeptWords(tokens[1..j])
    {
      assert tokens[1..j + 1] == tokens[1..j] + [tokens[j]];
      KeptWordsSnoc(tokens[1..j], tokens[j]);
      if !IsCollocation(tokens[j]) {
        exceptions := exceptions + [StripMarker(tokens[j])];
      }
    }
    assert tokens[1..|tokens|] == tokens[1..];
  }

  class BooleanQueryWordnet {
    /** Every `ArrayList` the tables point at, in the order they were created. */
    var lists: seq<seq<string>>
    var synSets: map<string, nat>
    /** `synSetsAdj`, `synSetsAdv`, `synSetsNoun` and `synSetsVerb`, in this order. */
    var synSetsColl: seq<map<string, nat>>
    var excSets: map<string, nat>

    function State(): Store
      reads this
    {
      Store(lists, synSets, synSetsColl, excSets)
    }

    ghost predicate Consistent()
      reads this
    {
      Valid(State())
    }

    /** The tables start out empty. */
    constructor ()
      ensures State() == Initial()
    {
      lists, synSets, synSetsColl, excSets := [], map[], [map[], map[], map[], map[]], map[];
    }

    /** Merges `xs` into the list at position `ref`, which every key holding it sees. */
    method MergeInto(ref: nat, xs: seq<string>)
      requires Consistent() && ref < |lists|
      modifies this
      ensures State() == Merge(old(State()), ref, xs)
    {
      var merged := AppendAbsent(lists[ref], xs);
      lists := lists[ref := merged];
    }

    /** `buildSynsets`'s body for one line of data file `pos`. */
    method ReadDataLine(pos: nat, line: string) returns (thrown: Option<Failure>)
      requires Consistent() && pos < PartsOfSpeech
      modifies this
      ensures Completes(DataLine(old(State()), pos, line), State(), thrown)
    {
      var tokenLine := Split(line, [" "]);
      if |tokenLine| < 5 {
        return Some(IndexOutOfBounds);
      }
      var newKey := tokenLine[4];
      var synNum := ParseHexInt(tokenLine[3]);
      if synNum.Thrown? {
        return Some(Exit);
      }
      if IsCollocation(newKey) {
        return None;
      }
      var read := ReadSynonyms(tokenLine, synNum.value);
      if read.Thrown? {
        return Some(read.failure);
      }
      assert ParseDataLine(line) == Ok(Some(Synset(newKey, read.value)));
      PutHeadword(pos, newKey, read.value);
      LinkSynonyms(newKey, read.value);
      return None;
    }

    /** The headword's entry gets the synonym list, or has the synonyms merged into it. */
    method PutHeadword(pos: nat, newKey: string, synonyms: seq<string>)
      requires Consistent() && pos < PartsOfSpeech
      modifies this
      ensures Consistent() && State() == AddHeadword(old(State()), pos, newKey, synonyms)
    {
      // An empty table holds no key, so `isEmpty()` and a missing key both put the new list.
      if synSets == map[] || newKey !in synSets {
        var ref := |lists|;
        lists := lists + [synonyms];
        synSets := synSets[newKey := ref];
        synSetsColl := synSetsColl[pos := synSetsColl[pos][newKey := ref]];
      } else {
        MergeInto(synSets[newKey], synonyms);
        if newKey in synSetsColl[pos] {
          MergeInto(synSetsColl[pos][newKey], synonyms);
        }
      }
    }

    /**
     * Every synonym's entry gets the headword and the other synonyms. The
     * loop walks `synonyms` as it was when the line was read; `LinkKeepsOwnList`
     * shows that the list it walks does not change during the loop.
     */
    method LinkSynonyms(newKey: string, synonyms: seq<string>)
      requires Consistent()
      modifies this
      ensures Consistent() && State() == LinkFrom(old(State()), newKey, synonyms, 0)
    {
      for j := 0 to |synonyms|
        invariant Consistent()
        invariant LinkFrom(State(), newKey, synonyms, j) == LinkFrom(old(State()), newKey, synonyms, 0)
      {
        LinkSynonym(newKey, synonyms, j);
      }
    }

    /** One turn of the linking loop. */
    method LinkSynonym(newKey: string, synonyms: seq<string>, j: nat)
      requires Consistent() && j < |synonyms|
      modifies this
      ensures Consistent() && State() == LinkOne(old(State()), newKey, synonyms, j)
    {
      var curSyns := EntryFor(newKey, synonyms, j);
      if synSets == map[] || synonyms[j] !in synSets {
        lists := lists + [curSyns];
        synSets := synSets[synonyms[j] := |lists| - 1];
      } else {
        MergeInto(synSets[synonyms[j]], curSyns);
      }
    }

    /** One data file: 29 header lines are read and dropped, then every line is processed. */
    method ReadDataFile(pos: nat, file: Option<seq<string>>) returns (thrown: Option<Failure>)
      requires Consistent() && pos < PartsOfSpeech
      modifies this
      ensures Completes(DataFile(old(State()), pos, file), State(), thrown)
    {
      if file.None? {
        return Some(Exit);
      }
      var lines := file.value;
      var n := 0;
      for j := 1 to HeaderLines + 1
        invariant n == if j - 1 <= |lines| then j - 1 else |lines|
      {
        if n < |lines| { n := n + 1; }
      }
      assert lines[n..] == if |lines| <= HeaderLines then [] else lines[HeaderLines..];
      while n < |lines|
        invariant n <= |lines| && Consistent()
        invariant DataLines(State(), pos, lines[n..]) == DataFile(old(State()), pos, file)
      {
        assert lines[n..][0] == lines[n] && lines[n..][1..] == lines[n + 1..];
        thrown := ReadDataLine(pos, lines[n]);
        if thrown.Some? {
          return;
        }
        n := n + 1;
      }
      return None;
    }

    /** `buildSynsets`'s body for one line of exception file `pos`. */
    method ReadExcLine(pos: nat, line: string) returns (thrown: Option<Failure>)
      requires Consistent() && pos < PartsOfSpeech
      modifies this
      ensures Completes(ExcLine(old(State()), pos, line), State(), thrown)
    {
      var tokenLine := Split(line, [" "]);
      if tokenLine == [] {
        return Some(IndexOutOfBounds);
      }
      if IsCollocation(tokenLine[0]) {
        return None;
      }
      var kept := ReadExceptions(tokenLine);
      var exceptions := CollectSynonyms(pos, tokenLine, kept);
      if excSets == map[] || tokenLine[0] !in excSets {
        excSets := excSets[tokenLine[0] := |lists|];
        lists := lists + [exceptions];
      } else {
        MergeInto(excSets[tokenLine[0]], exceptions);
      }
      return None;
    }

    /** The synonyms of every token the part-of-speech table knows, merged into `exceptions`. */
    method CollectSynonyms(pos: nat, tokenLine: seq<string>, kept: seq<string>) returns (exceptions: seq<string>)
      requires Consistent() && pos < PartsOfSpeech
      ensures exceptions == CollectFrom(State(), pos, tokenLine, kept, 0)
    {
      ghost var st := State();
      exceptions := kept;
      for j := 0 to |tokenLine|
        invariant CollectFrom(st, pos, tokenLine, exceptions, j) == CollectFrom(st, pos, tokenLine, kept, 0)
      {
        CollectStep(st, pos, tokenLine, exceptions, j);
        if tokenLine[j] in synSetsColl[pos] {
          var curSynSet := lists[synSetsColl[pos][tokenLine[j]]];
          exceptions := AppendAbsent(exceptions, curSynSet);
        }
      }
    }

    method ReadExcFile(pos: nat, file: Option<seq<string>>) returns (thrown: Option<Failure>)
      requires Consistent() && pos < PartsOfSpeech
      modifies this
      ensures Completes(ExcFile(old(State()), pos, file), State(), thrown)
    {
      if file.None? {
        return Some(Exit);
      }
      var lines := file.value;
      var n := 0;
      while n < |lines|
        invariant n <= |lines| && Consistent()
        invariant ExcLines(State(), pos, lines[n..]) == ExcFile(old(State()), pos, file)
      {
        assert lines[n..][0] == lines[n] && lines[n..][1..] == lines[n + 1..];
        thrown := ReadExcLine(pos, lines[n]);
        if thrown.Some? {
          return;
        }
        n := n + 1;
      }
      return None;
    }

    /**
     * `buildSynsets` over the contents of the eight files (see `Build`). The
     * exception table is created empty before the exception files; nothing
     * reads it earlier.
     */
    method BuildSynsets(files: seq<Option<seq<string>>>) returns (thrown: Option<Failure>)
      requires |files| == 2 * PartsOfSpeech
      modifies this
      ensures Completes(Build(files), State(), thrown)
    {
      lists, synSets, synSetsColl, excSets := [], map[], [map[], map[], map[], map[]], map[];
      thrown := ReadDataFiles(files);
      if thrown.Some? {
        return;
      }
      excSets := map[];
      thrown := ReadExcFiles(files);
      if thrown.Some? {
        return;
      }
      synSets := synSets + excSets;
      synSetsColl := [map[], map[], map[], map[]];
      excSets := map[];
    }

    method ReadDataFiles(files: seq<Option<seq<string>>>) returns (thrown: Option<Failure>)
      requires |files| == 2 * PartsOfSpeech && Consistent()
      modifies this
      ensures Completes(DataFilesFrom(old(State()), files, 0), State(), thrown)
      ensures thrown.None? ==> Consistent()
    {
      for i := 0 to PartsOfSpeech
        invariant Consistent()
        invariant DataFilesFrom(State(), files, i) == DataFilesFrom(old(State()), files, 0)
      {
        thrown := ReadDataFile(i, files[i]);
        if thrown.Some? {
          return;
        }
      }
      return None;
    }

    method ReadExcFiles(files: seq<Option<seq<string>>>) returns (thrown: Option<Failure>)
      requires |files| == 2 * PartsOfSpeech && Consistent()
      modifies this
      ensures Completes(ExcFilesFrom(old(State()), files, 0), State(), thrown)
      ensures thrown.None? ==> Consistent()
    {
      for i := PartsOfSpeech to 2 * PartsOfSpeech
        invariant Consistent()
        invariant ExcFilesFrom(State(), files, i - PartsOfSpeech) == ExcFilesFrom(old(State()), files, 0)
      {
        thrown := ReadExcFile(i - PartsOfSpeech, files[i]);
        if thrown.Some? {
          return;
        }
      }
      return None;
    }

    /** The number of keys of the combined table and the total size of their lists. */
    method PrintSynsetStats() returns (count: nat, synSum: nat)
      requires Consistent()
      ensures count == |synSets|
      ensures synSum == TotalSize(State(), synSets.Keys)
    {
      count := |synSets|;
      synSum := 0;
      var keys := synSets.Keys;
      while keys != {}
        invariant keys <= synSets.Keys
        invariant synSum + TotalSize(State(), keys) == TotalSize(State(), synSets.Keys)
        decreases |keys|
      {
        var key :| key in keys;
        TotalSizeRemove(State(), keys, key);
        synSum := synSum + |lists[synSets[key]]|;
        keys := keys - {key};
      }
    }
  }
}
