/**
 * Queries over a list of crawled movies: name frequencies with a top-ten
 * selection, substring counting in descriptions, and simple filters.
 */
module ImdbQueries {
  import opened JavaLang
  import opened Counting

  /** The fields of a crawled movie that these queries read. */
  datatype Movie = Movie(
    title: string,
    year: string,
    description: string,
    genreList: seq<string>,
    castList: seq<string>,
    characterList: seq<string>)

  /** The query results' pair of values. */
  datatype Tuple<K, V> = Tuple(first: K, second: V)

  /** A name and its count. */
  type Entry = Tuple<string, int>

  /** The argument of `Tuple.equals`: null, a tuple, or an object of some other class. */
  datatype Obj<K, V> = Null | TupleObj(tuple: Tuple<K, V>) | Other

  // ---------------------------------------------------------------------------
  // Tuple.equals
  // ---------------------------------------------------------------------------

  /**
   * `Tuple.equals` casts its argument before reading its fields: a null
   * argument throws a NullPointerException, any other class a
   * ClassCastException; two tuples are compared component by component.
   */
  function TupleEquals<K(==), V(==)>(self: Tuple<K, V>, obj: Obj<K, V>): (r: Result<bool>)
    ensures obj.Null? ==> r == Thrown(NullPointer)
    ensures obj.Other? ==> r == Thrown(ClassCast)
    ensures obj.TupleObj? ==> r == Ok(self == obj.tuple)
  {
    match obj
    case Null => Thrown(NullPointer)
    case Other => Thrown(ClassCast)
    case TupleObj(other) => Ok(self.first == other.first && self.second == other.second)
  }

  /** On tuples, `equals` never throws and is symmetric. */
  lemma TupleEqualsSymmetric<K, V>(a: Tuple<K, V>, b: Tuple<K, V>)
    ensures TupleEquals(a, TupleObj(b)).Ok?
    ensures TupleEquals(a, TupleObj(b)) == TupleEquals(b, TupleObj(a))
  {
  }

  // ---------------------------------------------------------------------------
  // Names and their counts
  // ---------------------------------------------------------------------------

  /** Every character name of every movie, movie by movie. */
  function Characters(movies: seq<Movie>): seq<string> {
    if movies == [] then [] else Characters(movies[..|movies| - 1]) + movies[|movies| - 1].characterList
  }

  /** Every cast entry of every movie, movie by movie. */
  function Cast(movies: seq<Movie>): seq<string> {
    if movies == [] then [] else Cast(movies[..|movies| - 1]) + movies[|movies| - 1].castList
  }

  /** The names `keep` accepts, in order. */
  function Filter(xs: seq<string>, keep: string -> bool): seq<string>
  {
    if xs == [] then []
    else Filter(xs[..|xs| - 1], keep) + (if keep(xs[|xs| - 1]) then [xs[|xs| - 1]] else [])
  }

  lemma {:induction false} FilterCount(xs: seq<string>, keep: string -> bool, x: string)
    ensures multiset(Filter(xs, keep))[x] == if keep(x) then multiset(xs)[x] else 0
  {
    if xs != [] {
      var init := xs[..|xs| - 1];
      FilterCount(init, keep, x);
      assert xs == init + [xs[|xs| - 1]];
    }
  }

  lemma FilterSnoc(xs: seq<string>, x: string, keep: string -> bool)
    ensures Filter(xs + [x], keep) == Filter(xs, keep) + (if keep(x) then [x] else [])
  {
    assert (xs + [x])[..|xs|] == xs;
  }

  /**
   * The character names that are counted: after lower-casing, not empty and
   * containing none of "herself", "himself" and "doctor".
   */
  predicate CountedCharacter(character: string) {
    var lower := ToLower(character);
    lower != [] && !Contains(lower, "herself") && !Contains(lower, "himself") && !Contains(lower, "doctor")
  }

  /** The cast entries that are counted: the non-empty ones. */
  predicate CountedActor(actor: string) {
    actor != []
  }

  /** The counts of every counted character name. */
  function CharacterCounts(movies: seq<Movie>): map<string, nat> {
    Tally(map[], Filter(Characters(movies), CountedCharacter))
  }

  /** The counts of every non-empty actor name. */
  function ActorCounts(movies: seq<Movie>): map<string, nat> {
    Tally(map[], Filter(Cast(movies), CountedActor))
  }

  /**
   * A name is in the counts exactly when it is kept and occurs, and its count
   * is its number of occurrences among all the names.
   */
  lemma CountsOfKept(xs: seq<string>, keep: string -> bool, name: string)
    ensures name in Tally(map[], Filter(xs, keep)) <==> keep(name) && name in xs
    ensures Get(Tally(map[], Filter(xs, keep)), name) == if keep(name) then multiset(xs)[name] else 0
  {
    TallyCount(map[], Filter(xs, keep), name);
    TallyKeys(map[], Filter(xs, keep));
    FilterCount(xs, keep, name);
  }

  /** One more name: counted when `keep` accepts it, skipped otherwise. */
  lemma CountStep(counts: map<string, nat>, names: seq<string>, j: nat, keep: string -> bool)
    requires j < |names|
    ensures Tally(counts, Filter(names[..j + 1], keep)) ==
      if keep(names[j]) then Inc(Tally(counts, Filter(names[..j], keep)), names[j])
      else Tally(counts, Filter(names[..j], keep))
  {
    var kept := Filter(names[..j], keep);
    assert names[..j + 1] == names[..j] + [names[j]];
    FilterSnoc(names[..j], names[j], keep);
    if keep(names[j]) {
      TallySnoc(counts, kept, names[j]);
    } else {
      assert kept + [] == kept;
    }
  }

  /** The inner counting loop: the kept names of one list, one at a time. */
  method CountNames(counts: map<string, nat>, names: seq<string>, keep: string -> bool) returns (r: map<string, nat>)
    ensures r == Tally(counts, Filter(names, keep))
  {
    r := counts;
    for j := 0 to |names|
      invariant r == Tally(counts, Filter(names[..j], keep))
    {
      var name := names[j];
      CountStep(counts, names, j, keep);
      if keep(name) {
        if name in r {
          r := r[name := r[name] + 1];
        } else {
          r := r[name := 1];
        }
      }
    }
    assert names[..|names|] == names;
  }

  /** The outer loop over the movies for the character names. */
  method CountCharacters(movies: seq<Movie>) returns (charactersCount: map<string, nat>)
    ensures charactersCount == CharacterCounts(movies)
  {
    charactersCount := map[];
    for i := 0 to |movies|
      invariant charactersCount == CharacterCounts(movies[..i])
    {
      assert movies[..i + 1][..i] == movies[..i];
      charactersCount := CountNames(charactersCount, movies[i].characterList, CountedCharacter);
      FilterAppend(Characters(movies[..i]), movies[i].characterList, CountedCharacter);
      TallyAppend(map[], Filter(Characters(movies[..i]), CountedCharacter), Filter(movies[i].characterList, CountedCharacter));
    }
    assert movies[..|movies|] == movies;
  }

  /** The outer loop over the movies for the cast lists. */
  method CountActors(movies: seq<Movie>) returns (actorMap: map<string, nat>)
    ensures actorMap == ActorCounts(movies)
  {
    actorMap := map[];
    for i := 0 to |movies|
      invariant actorMap == ActorCounts(movies[..i])
    {
      assert movies[..i + 1][..i] == movies[..i];
      actorMap := CountNames(actorMap, movies[i].castList, CountedActor);
      FilterAppend(Cast(movies[..i]), movies[i].castList, CountedActor);
      TallyAppend(map[], Filter(Cast(movies[..i]), CountedActor), Filter(movies[i].castList, CountedActor));
    }
    assert movies[..|movies|] == movies;
  }

  lemma {:induction false} FilterAppend(xs: seq<string>, ys: seq<string>, keep: string -> bool)
    ensures Filter(xs + ys, keep) == Filter(xs, keep) + Filter(ys, keep)
  {
    if ys != [] {
      var init := ys[..|ys| - 1];
      var last := ys[|ys| - 1];
      assert ys == init + [last];
      assert xs + ys == (xs + init) + [last];
      FilterAppend(xs, init, keep);
      FilterSnoc(xs + init, last, keep);
      FilterSnoc(init, last, keep);
    } else {
      assert xs + ys == xs;
    }
  }

  // ---------------------------------------------------------------------------
  // Sorting and the top ten
  // ---------------------------------------------------------------------------

  /** The two comparators the queries sort entries with. */
  datatype Order = ByCountDescending | ByNameIgnoreCase

  /** Strict lexicographic order on strings, character by character. */
  predicate LexLess(a: string, b: string) {
    if a == [] then b != []
    else b != [] && (a[0] < b[0] || (a[0] == b[0] && LexLess(a[1..], b[1..])))
  }

  lemma {:induction false} LexLessAsymmetric(a: string, b: string)
    ensures LexLess(a, b) ==> !LexLess(b, a)
  {
    if a != [] && b != [] && a[0] == b[0] {
      LexLessAsymmetric(a[1..], b[1..]);
    }
  }

  /**
   * `a` sorts strictly before `b`: a higher count, or a name smaller when
   * both are compared ignoring case.
   */
  predicate Before(o: Order, a: Entry, b: Entry) {
    match o
    case ByCountDescending => a.second > b.second
    case ByNameIgnoreCase => LexLess(ToLower(a.first), ToLower(b.first))
  }

  lemma BeforeAsymmetric(o: Order, a: Entry, b: Entry)
    ensures Before(o, a, b) ==> !Before(o, b, a)
  {
    if o.ByNameIgnoreCase? {
      LexLessAsymmetric(ToLower(a.first), ToLower(b.first));
    }
  }

  /** No entry sorts strictly before its predecessor. */
  predicate Ordered(o: Order, s: seq<Entry>) {
    forall i :: 0 < i < |s| ==> !Before(o, s[i], s[i - 1])
  }

  /** Inserts `x` after every leading entry it does not sort before, which keeps the sort stable. */
  function Insert(o: Order, x: Entry, s: seq<Entry>): (r: seq<Entry>)
    ensures multiset(r) == multiset(s) + multiset{x}
    ensures r != [] && (r[0] == x || (s != [] && r[0] == s[0]))
  {
    if s == [] then [x]
    else if Before(o, x, s[0]) then [x] + s
    else
      assert s == [s[0]] + s[1..];
      [s[0]] + Insert(o, x, s[1..])
  }

  lemma {:induction false} InsertOrdered(o: Order, x: Entry, s: seq<Entry>)
    requires Ordered(o, s)
    ensures Ordered(o, Insert(o, x, s))
  {
    if s != [] {
      BeforeAsymmetric(o, x, s[0]);
      if !Before(o, x, s[0]) {
        InsertOrdered(o, x, s[1..]);
        var rest := Insert(o, x, s[1..]);
        assert Insert(o, x, s) == [s[0]] + rest;
        if |s| > 1 {
          assert !Before(o, s[1], s[0]);
        }
      }
    }
  }

  /** A stable sort: the entries of `xs`, inserted one after the other. */
  function Sort(o: Order, xs: seq<Entry>): (r: seq<Entry>)
    ensures multiset(r) == multiset(xs)
  {
    if xs == [] then []
    else
      assert xs == xs[..|xs| - 1] + [xs[|xs| - 1]];
      Insert(o, xs[|xs| - 1], Sort(o, xs[..|xs| - 1]))
  }

  lemma {:induction false} SortOrdered(o: Order, xs: seq<Entry>)
    ensures Ordered(o, Sort(o, xs))
  {
    if xs != [] {
      SortOrdered(o, xs[..|xs| - 1]);
      InsertOrdered(o, xs[|xs| - 1], Sort(o, xs[..|xs| - 1]));
    }
  }

  /** Sorted by count means non-increasing counts over every pair of positions. */
  lemma {:induction false} OrderedDescending(s: seq<Entry>)
    requires Ordered(ByCountDescending, s)
    ensures forall i, j :: 0 <= i < j < |s| ==> s[i].second >= s[j].second
  {
    if |s| > 1 {
      var init := s[..|s| - 1];
      assert Ordered(ByCountDescending, init);
      OrderedDescending(init);
      forall i, j | 0 <= i < j < |s|
        ensures s[i].second >= s[j].second
      {
        if j < |s| - 1 {
          assert s[i] == init[i] && s[j] == init[j];
        } else if i < j - 1 {
          assert s[i] == init[i] && s[j - 1] == init[j - 1];
        }
      }
    }
  }

  /** The first `n` entries, or all of them when there are fewer. */
  function Take<T>(xs: seq<T>, n: nat): seq<T> {
    if |xs| <= n then xs else xs[..n]
  }

  /** Some entry carries this name. */
  predicate Ranks(r: seq<Entry>, name: string) {
    exists i :: 0 <= i < |r| && r[i].first == name
  }

  /** Every entry carries its name's count. */
  predicate Consistent(r: seq<Entry>, counts: map<string, nat>) {
    forall i :: 0 <= i < |r| ==> r[i].first in counts && r[i].second == counts[r[i].first]
  }

  /** No name is listed twice. */
  predicate DistinctNames(r: seq<Entry>) {
    forall i, j :: 0 <= i < j < |r| ==> r[i].first != r[j].first
  }

  /** `entries` lists each key of `counts` once, with its count: an entry set. */
  predicate Enumerates(entries: seq<Entry>, counts: map<string, nat>) {
    Consistent(entries, counts) && DistinctNames(entries) &&
    forall k :: k in counts ==> Tuple(k, counts[k] as int) in entries
  }

  /**
   * At most ten distinct names with their counts, and any name left out
   * counts no more than each listed one (so nothing is left out while there
   * is room).
   */
  predicate IsTopTen(r: seq<Entry>, counts: map<string, nat>) {
    |r| <= 10 && Consistent(r, counts) && DistinctNames(r) &&
    forall k :: k in counts && !Ranks(r, k) ==>
      |r| == 10 && forall i :: 0 <= i < |r| ==> counts[k] <= r[i].second
  }

  /** Rearranging consistent entries with distinct names keeps them consistent and distinct, with the same names. */
  lemma PermutationKeepsNames(r: seq<Entry>, s: seq<Entry>, counts: map<string, nat>)
    requires multiset(r) == multiset(s)
    requires Consistent(r, counts) && DistinctNames(r)
    ensures Consistent(s, counts) && DistinctNames(s)
    ensures forall k :: Ranks(r, k) <==> Ranks(s, k)
    ensures forall x :: x in r <==> x in s
  {
    forall x | x in s
      ensures x in r
    {
      assert multiset(s)[x] > 0;
    }
    forall x | x in r
      ensures x in s
    {
      assert multiset(r)[x] > 0;
    }
    forall i | 0 <= i < |s|
      ensures s[i].first in counts && s[i].second == counts[s[i].first]
    {
      assert s[i] in r;
    }
    forall i, j | 0 <= i < j < |s|
      ensures s[i].first != s[j].first
    {
      if s[i].first == s[j].first {
        assert s[i] in r && s[j] in r;
        RepeatCountsTwice(s, i, j);
        DistinctCount(r, s[i]);
        assert false;
      }
    }
    forall k
      ensures Ranks(r, k) <==> Ranks(s, k)
    {
      if Ranks(r, k) {
        var i :| 0 <= i < |r| && r[i].first == k;
        assert r[i] in s;
      }
      if Ranks(s, k) {
        var i :| 0 <= i < |s| && s[i].first == k;
        assert s[i] in r;
      }
    }
  }

  /** Distinct names make distinct entries. */
  lemma DistinctNamesDistinct(r: seq<Entry>)
    requires DistinctNames(r)
    ensures forall i, j :: 0 <= i < j < |r| ==> r[i] != r[j]
  {
  }

  /** The ten entries with the highest counts, ties in entry-set order. */
  function TopTen(entries: seq<Entry>): seq<Entry> {
    Take(Sort(ByCountDescending, entries), 10)
  }

  /**
   * The first ten of a list that holds every key's entry once, by
   * non-increasing count, are a top ten.
   */
  lemma PrefixIsTopTen(s: seq<Entry>, counts: map<string, nat>)
    requires Consistent(s, counts) && DistinctNames(s)
    requires forall i, j :: 0 <= i < j < |s| ==> s[i].second >= s[j].second
    requires forall k :: k in counts ==> Tuple(k, counts[k] as int) in s
    ensures IsTopTen(Take(s, 10), counts)
  {
    var r := Take(s, 10);
    assert r == s[..|r|];
    forall k | k in counts && !Ranks(r, k)
      ensures |r| == 10 && forall i :: 0 <= i < |r| ==> counts[k] <= r[i].second
    {
      var j :| 0 <= j < |s| && s[j] == Tuple(k, counts[k] as int);
      assert j >= |r|;
    }
  }

  /** Sorting an entry set by count and keeping ten gives a top ten, in non-increasing order. */
  lemma TopTenSelects(entries: seq<Entry>, counts: map<string, nat>)
    requires Enumerates(entries, counts)
    ensures IsTopTen(TopTen(entries), counts)
    ensures forall i, j :: 0 <= i < j < |TopTen(entries)| ==> TopTen(entries)[i].second >= TopTen(entries)[j].second
  {
    var s := Sort(ByCountDescending, entries);
    SortOrdered(ByCountDescending, entries);
    OrderedDescending(s);
    DistinctNamesDistinct(entries);
    PermutationKeepsNames(entries, s, counts);
    PrefixIsTopTen(s, counts);
    assert TopTen(entries) == s[..|TopTen(entries)|];
  }

  /** A top ten stays a top ten however it is rearranged. */
  lemma TopTenRearranged(r: seq<Entry>, s: seq<Entry>, counts: map<string, nat>)
    requires IsTopTen(r, counts) && multiset(r) == multiset(s)
    ensures IsTopTen(s, counts)
  {
    DistinctNamesDistinct(r);
    PermutationKeepsNames(r, s, counts);
    assert |s| == |multiset(s)| == |r|;
    forall k | k in counts && !Ranks(s, k)
      ensures forall i :: 0 <= i < |s| ==> counts[k] <= s[i].second
    {
      forall i | 0 <= i < |s|
        ensures counts[k] <= s[i].second
      {
        assert s[i] in multiset(r);
        var j :| 0 <= j < |r| && r[j] == s[i];
      }
    }
  }

  /** The entry set of a map, in the map's iteration order (which is not fixed). */
  method EntrySet(counts: map<string, nat>) returns (entries: seq<Entry>)
    ensures Enumerates(entries, counts)
  {
    entries := [];
    var keys := counts.Keys;
    while keys != {}
      invariant keys <= counts.Keys
      invariant Consistent(entries, counts) && DistinctNames(entries)
      invariant forall i :: 0 <= i < |entries| ==> entries[i].first !in keys
      invariant forall k :: k in counts && k !in keys ==> Tuple(k, counts[k] as int) in entries
      decreases |keys|
    {
      var key :| key in keys;
      entries := entries + [Tuple(key, counts[key] as int)];
      keys := keys - {key};
    }
  }

  // ---------------------------------------------------------------------------
  // The queries
  // ---------------------------------------------------------------------------

  /**
   * Uncreative writers: the ten most frequent counted character names, by
   * decreasing count, each with its number of occurrences.
   */
  method QueryUncreativeWriters(movies: seq<Movie>) returns (r: seq<Entry>)
    ensures IsTopTen(r, CharacterCounts(movies))
    ensures forall i, j :: 0 <= i < j < |r| ==> r[i].second >= r[j].second
  {
    var charactersCount := CountCharacters(movies);
    var entries := EntrySet(charactersCount);
    TopTenSelects(entries, charactersCount);
    r := TopTen(entries);
  }

  /** What a returned name is: a counted character, with all of its occurrences. */
  lemma UncreativeWritersNames(movies: seq<Movie>, r: seq<Entry>, i: nat)
    requires IsTopTen(r, CharacterCounts(movies)) && i < |r|
    ensures CountedCharacter(r[i].first)
    ensures r[i].second == multiset(Characters(movies))[r[i].first]
  {
    CountsOfKept(Characters(movies), CountedCharacter, r[i].first);
  }

  /**
   * Workhorse: the ten most frequent non-empty actor names with their counts,
   * then ordered by name ignoring case rather than by count.
   */
  method QueryWorkHorse(movies: seq<Movie>) returns (r: seq<Entry>)
    ensures IsTopTen(r, ActorCounts(movies))
    ensures Ordered(ByNameIgnoreCase, r)
  {
    var actorMap := CountActors(movies);
    var entries := EntrySet(actorMap);
    TopTenSelects(entries, actorMap);
    var top := TopTen(entries);
    r := Sort(ByNameIgnoreCase, top);
    SortOrdered(ByNameIgnoreCase, top);
    TopTenRearranged(top, r, actorMap);
  }

  /** What a returned name is: a non-empty cast entry, with all of its occurrences. */
  lemma WorkHorseNames(movies: seq<Movie>, r: seq<Entry>, i: nat)
    requires IsTopTen(r, ActorCounts(movies)) && i < |r|
    ensures r[i].first != []
    ensures r[i].second == multiset(Cast(movies))[r[i].first]
  {
    CountsOfKept(Cast(movies), CountedActor, r[i].first);
  }

  /** The length lost by deleting every occurrence of `p`: `|p|` per occurrence. */
  function CountByDeletion(s: string, p: string): (n: int)
    requires p != []
    ensures n == |p| * Occurrences(s, p)
  {
    ReplaceByEmptyLength(s, p);
    |s| - |Replace(s, p, "")|
  }

  /** The lower-cased description mentions both "kill" and "love". */
  predicate KillsAndLoves(m: Movie) {
    var lower := ToLower(m.description);
    Contains(lower, "kill") && Contains(lower, "love")
  }

  /** The number reported for a movie: the two deletion counts added. */
  function StoryScore(m: Movie): (n: int)
    ensures n == 4 * (Occurrences(ToLower(m.description), "kill") + Occurrences(ToLower(m.description), "love"))
  {
    var lower := ToLower(m.description);
    CountByDeletion(lower, "kill") + CountByDeletion(lower, "love")
  }

  /** Every movie that kills and loves, paired with its score, in input order. */
  function StoryMatches(movies: seq<Movie>): (r: seq<Tuple<Movie, int>>)
    ensures forall i :: 0 <= i < |r| ==> r[i].first in movies && KillsAndLoves(r[i].first) && r[i].second == StoryScore(r[i].first)
  {
    if movies == [] then []
    else
      var m := movies[|movies| - 1];
      StoryMatches(movies[..|movies| - 1]) + (if KillsAndLoves(m) then [Tuple(m, StoryScore(m))] else [])
  }

  /** The filter keeps input order: the matches of a concatenation are the matches of each part. */
  lemma {:induction false} StoryMatchesAppend(xs: seq<Movie>, ys: seq<Movie>)
    ensures StoryMatches(xs + ys) == StoryMatches(xs) + StoryMatches(ys)
  {
    if ys != [] {
      var init := ys[..|ys| - 1];
      assert (xs + ys)[..|xs + ys| - 1] == xs + init;
      StoryMatchesAppend(xs, init);
    } else {
      assert xs + ys == xs;
    }
  }

  /** Pillars of storytelling: the first ten matches, in input order, without any sort. */
  function QueryPillarsOfStorytelling(movies: seq<Movie>): (r: seq<Tuple<Movie, int>>)
    ensures |r| == if |StoryMatches(movies)| <= 10 then |StoryMatches(movies)| else 10
    ensures forall i :: 0 <= i < |r| ==> r[i] == StoryMatches(movies)[i]
  {
    Take(StoryMatches(movies), 10)
  }

  /** Every returned score counts both words, so it is at least 8 and a multiple of 4. */
  lemma PillarsScores(movies: seq<Movie>, i: nat)
    requires i < |QueryPillarsOfStorytelling(movies)|
    ensures var t := QueryPillarsOfStorytelling(movies)[i];
      t.first in movies && KillsAndLoves(t.first) &&
      t.second == StoryScore(t.first) && t.second >= 8 && t.second % 4 == 0
  {
    var t := QueryPillarsOfStorytelling(movies)[i];
    assert t == StoryMatches(movies)[i];
    var lower := ToLower(t.first.description);
    OccurrencesPositive(lower, "kill");
    OccurrencesPositive(lower, "love");
  }

  /** A red-planet movie: genre "Sci-Fi", and "Mars" in the description, case included. */
  predicate OnMars(m: Movie) {
    "Sci-Fi" in m.genreList && Contains(m.description, "Mars")
  }

  /** The two filters of the red-planet query, in input order. */
  function RedPlanetFilter(movies: seq<Movie>): (r: seq<Movie>)
    ensures forall m :: m in r <==> m in movies && OnMars(m)
  {
    if movies == [] then []
    else
      var m := movies[|movies| - 1];
      assert movies == movies[..|movies| - 1] + [m];
      RedPlanetFilter(movies[..|movies| - 1]) + (if OnMars(m) then [m] else [])
  }

  /** Magic couples is not implemented: always an empty list. */
  function QueryMagicCouple(movies: seq<Movie>): (r: seq<Tuple<Tuple<string, string>, int>>)
    ensures r == []
  {
    []
  }
}
