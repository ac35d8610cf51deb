/**
 * The inverted-index builder: one token -> list-of-ids map per searchable
 * field. Posting lists are array lists, so a token that occurs twice in a
 * document lists the document's id twice.
 */
module Indexers {
  import opened JavaLang
  import opened Documents

  type PostingMap = map<string, seq<string>>

  /** The posting list of `t`, empty when `t` is not a key. */
  function Get(index: PostingMap, t: string): seq<string>
  {
    if t in index then index[t] else []
  }

  /** How many times `t` occurs in `ts`. */
  function Count(ts: seq<string>, t: string): (n: nat)
    ensures n > 0 <==> t in ts
    ensures n <= |ts|
    decreases |ts|
  {
    if ts == [] then 0
    else Count(ts[..|ts| - 1], t) + (if ts[|ts| - 1] == t then 1 else 0)
  }

  function Repeat(id: string, n: nat): (r: seq<string>)
    ensures |r| == n
    ensures forall k :: 0 <= k < n ==> r[k] == id
  {
    if n == 0 then [] else Repeat(id, n - 1) + [id]
  }

  /**
   * What the loop of `processDocument` leaves in the map: for each token in
   * turn, the id is appended to the token's list, which is created when the
   * token is not a key yet.
   */
  function Posted(index: PostingMap, id: string, tokens: seq<string>): PostingMap
    decreases |tokens|
  {
    if tokens == [] then index
    else
      var m := Posted(index, id, tokens[..|tokens| - 1]);
      var t := tokens[|tokens| - 1];
      m[t := Get(m, t) + [id]]
  }

  /** No key disappears, and the new keys are the tokens. */
  lemma {:induction false} PostedKeys(index: PostingMap, id: string, tokens: seq<string>, t: string)
    ensures t in Posted(index, id, tokens) <==> t in index || t in tokens
    decreases |tokens|
  {
    if tokens != [] {
      var front := tokens[..|tokens| - 1];
      PostedKeys(index, id, front, t);
      assert tokens == front + [tokens[|tokens| - 1]];
    }
  }

  /**
   * Each token's list grows, at its end, by the id repeated as often as the
   * token occurs; every other list stays as it was; no key disappears and the
   * new keys are the tokens.
   */
  lemma PostedClosedForm(index: PostingMap, id: string, tokens: seq<string>, t: string)
    ensures Get(Posted(index, id, tokens), t) == Get(index, t) + Repeat(id, Count(tokens, t))
    ensures t in Posted(index, id, tokens) <==> t in index || t in tokens
  {
    PostedKeys(index, id, tokens, t);
    PostedList(index, id, tokens, t);
  }

  lemma {:induction false} PostedList(index: PostingMap, id: string, tokens: seq<string>, t: string)
    ensures Get(Posted(index, id, tokens), t) == Get(index, t) + Repeat(id, Count(tokens, t))
    decreases |tokens|
  {
    if tokens != [] {
      var front := tokens[..|tokens| - 1];
      var last := tokens[|tokens| - 1];
      var m := Posted(index, id, front);
      PostedList(index, id, front, t);
      var n := Count(front, t);
      assert Posted(index, id, tokens) == m[last := Get(m, last) + [id]];
      if t == last {
        assert Count(tokens, t) == n + 1;
        assert Repeat(id, n + 1) == Repeat(id, n) + [id];
        assert Get(Posted(index, id, tokens), t) == (Get(index, t) + Repeat(id, n)) + [id];
      } else {
        assert Count(tokens, t) == n;
      }
    }
  }

  /** After `processDocument` every token is a key whose list holds the id. */
  lemma PostedContainsId(index: PostingMap, id: string, tokens: seq<string>, t: string)
    requires t in tokens
    ensures t in Posted(index, id, tokens) && id in Posted(index, id, tokens)[t]
  {
    PostedClosedForm(index, id, tokens, t);
    var n := Count(tokens, t);
    assert Repeat(id, n)[n - 1] == id;
    assert Get(Posted(index, id, tokens), t)[|Get(index, t)| + n - 1] == id;
  }

  /** Lists of keys that are not among the tokens are left untouched. */
  lemma PostedUnchanged(index: PostingMap, id: string, tokens: seq<string>, t: string)
    requires t !in tokens && t in index
    ensures t in Posted(index, id, tokens) && Posted(index, id, tokens)[t] == index[t]
  {
    PostedClosedForm(index, id, tokens, t);
  }

  /** `processDocument`: the for-loop over the tokens, updating the map in place. */
  method ProcessDocument(id: string, tokens: seq<string>, index: PostingMap) returns (r: PostingMap)
    ensures r == Posted(index, id, tokens)
  {
    r := index;
    for i := 0 to |tokens|
      invariant r == Posted(index, id, tokens[..i])
    {
      var token := tokens[i];
      assert tokens[..i + 1][..i] == tokens[..i];
      assert tokens[..i + 1][i] == token;
      ghost var before := r;
      if token in r {
        r := r[token := r[token] + [id]];
      } else {
        r := r[token := [id]];
        assert [id] == Get(before, token) + [id];
      }
    }
    assert tokens[..|tokens|] == tokens;
  }

  /** The index built from a list of (id, tokens) entries, taken in order. */
  function InvertedIndex(entries: seq<(string, seq<string>)>): PostingMap
    decreases |entries|
  {
    if entries == [] then map[]
    else
      var last := entries[|entries| - 1];
      Posted(InvertedIndex(entries[..|entries| - 1]), last.0, last.1)
  }

  /** The keys of the index are the tokens of its entries. */
  lemma {:induction false} IndexKeys(entries: seq<(string, seq<string>)>, t: string)
    ensures t in InvertedIndex(entries) <==> exists k :: 0 <= k < |entries| && t in entries[k].1
    decreases |entries|
  {
    if entries != [] {
      var n := |entries| - 1;
      var front := entries[..n];
      IndexKeys(front, t);
      PostedClosedForm(InvertedIndex(front), entries[n].0, entries[n].1, t);
      assert forall k :: 0 <= k < n ==> entries[k] == front[k];
    }
  }

  /** The inverted-index invariant: `id` is listed under `t` iff some entry with that id has `t`. */
  lemma {:induction false} IndexMembership(entries: seq<(string, seq<string>)>, t: string, id: string)
    ensures id in Get(InvertedIndex(entries), t) <==> EntryHas(entries, id, t)
    decreases |entries|
  {
    if entries != [] {
      var n := |entries| - 1;
      var front := entries[..n];
      var last := entries[n];
      IndexMembership(front, t, id);
      PostedClosedForm(InvertedIndex(front), last.0, last.1, t);
      var c := Count(last.1, t);
      RepeatMembership(last.0, c, id);
      assert Get(InvertedIndex(entries), t) == Get(InvertedIndex(front), t) + Repeat(last.0, c);
      assert entries == front + [last];
      EntryHasAppend(front, last, id, t);
    }
  }

  lemma RepeatMembership(x: string, n: nat, y: string)
    ensures y in Repeat(x, n) <==> n > 0 && x == y
  {
    if n > 0 {
      assert Repeat(x, n)[0] == x;
    }
  }

  /** The searchable fields the indexer builds a map for. */
  datatype Field = TitleField | PlotField | EpisodeField | YearField

  /** Whether the stream for `f` lets the document through its filter. */
  predicate Selected(d: DocumentValue, f: Field)
  {
    match f
    case TitleField => true
    case PlotField => true
    case EpisodeField => d.episodeTitle.Some?
    case YearField => d.year.Some? && !Contains(d.year.value, "????")
  }

  /** The tokens the stream for `f` hands to `processDocument`; `None` is null. */
  function Tokens(d: DocumentValue, f: Field): Option<seq<string>>
  {
    match f
    case TitleField => d.title
    case PlotField => d.plot
    case EpisodeField => d.episodeTitle
    case YearField => if d.year.Some? then Some([d.year.value]) else None
  }

  /**
   * The entries the stream for `f` feeds in: the selected documents with their
   * tokens; iterating over a null token list throws.
   */
  function Entries(ds: seq<DocumentValue>, f: Field): Result<seq<(string, seq<string>)>>
    decreases |ds|
  {
    if ds == [] then Ok([])
    else
      var d := ds[|ds| - 1];
      match Entries(ds[..|ds| - 1], f)
      case Thrown(e) => Thrown(e)
      case Ok(es) =>
        if !Selected(d, f) then Ok(es)
        else if Tokens(d, f).None? then Thrown(NullPointer)
        else Ok(es + [(d.titleId, Tokens(d, f).value)])
  }

  /** The map the stream for `f` leaves behind. */
  function BuildIndex(ds: seq<DocumentValue>, f: Field): (r: Result<PostingMap>)
    ensures r.Thrown? ==> r.failure == NullPointer
  {
    EntriesThrow(ds, f);
    match Entries(ds, f)
    case Ok(es) => Ok(InvertedIndex(es))
    case Thrown(e) => Thrown(e)
  }

  /** The streams throw exactly when a title or plot is null; the others filter first. */
  lemma {:induction false} EntriesThrow(ds: seq<DocumentValue>, f: Field)
    ensures Entries(ds, f).Thrown? <==> exists i :: 0 <= i < |ds| && Selected(ds[i], f) && Tokens(ds[i], f).None?
    ensures Entries(ds, f).Thrown? ==> Entries(ds, f).failure == NullPointer
    decreases |ds|
  {
    if ds != [] {
      var n := |ds| - 1;
      EntriesThrow(ds[..n], f);
      assert forall i :: 0 <= i < n ==> ds[i] == ds[..n][i];
    }
  }

  /** The episode and year streams filter out the documents that would throw. */
  lemma {:induction false} FilteredEntriesOk(ds: seq<DocumentValue>, f: Field)
    requires f == EpisodeField || f == YearField
    ensures Entries(ds, f).Ok?
    decreases |ds|
  {
    if ds != [] {
      FilteredEntriesOk(ds[..|ds| - 1], f);
    }
  }

  /** Some entry with id `id` has the token `t`. */
  predicate EntryHas(es: seq<(string, seq<string>)>, id: string, t: string)
  {
    exists k :: 0 <= k < |es| && es[k].0 == id && t in es[k].1
  }

  /** Some document selected for `f`, with id `id`, has the token `t` in that field. */
  predicate DocumentHas(ds: seq<DocumentValue>, f: Field, id: string, t: string)
  {
    exists i :: 0 <= i < |ds| && Selected(ds[i], f) && ds[i].titleId == id && Tokens(ds[i], f).Some? && t in Tokens(ds[i], f).value
  }

  lemma EntryHasAppend(es: seq<(string, seq<string>)>, e: (string, seq<string>), id: string, t: string)
    ensures EntryHas(es + [e], id, t) <==> EntryHas(es, id, t) || (e.0 == id && t in e.1)
  {
    var es' := es + [e];
    if EntryHas(es', id, t) {
      var k :| 0 <= k < |es'| && es'[k].0 == id && t in es'[k].1;
      if k < |es| { assert es[k] == es'[k]; }
    }
    if EntryHas(es, id, t) {
      var k :| 0 <= k < |es| && es[k].0 == id && t in es[k].1;
      assert es'[k] == es[k];
    }
    assert es'[|es|] == e;
  }

  lemma DocumentHasAppend(ds: seq<DocumentValue>, f: Field, id: string, t: string)
    requires ds != []
    ensures var n := |ds| - 1; var d := ds[n];
      DocumentHas(ds, f, id, t) <==>
      DocumentHas(ds[..n], f, id, t) || (Selected(d, f) && d.titleId == id && Tokens(d, f).Some? && t in Tokens(d, f).value)
  {
    var n := |ds| - 1;
    if DocumentHas(ds, f, id, t) {
      var i :| 0 <= i < |ds| && Selected(ds[i], f) && ds[i].titleId == id && Tokens(ds[i], f).Some? && t in Tokens(ds[i], f).value;
      if i < n { assert ds[..n][i] == ds[i]; }
    }
    if DocumentHas(ds[..n], f, id, t) {
      var i :| 0 <= i < n && Selected(ds[..n][i], f) && ds[..n][i].titleId == id && Tokens(ds[..n][i], f).Some? && t in Tokens(ds[..n][i], f).value;
      assert ds[i] == ds[..n][i];
    }
  }

  /** The entries are exactly the selected documents, paired with their tokens. */
  lemma {:induction false} EntriesMembership(ds: seq<DocumentValue>, f: Field, id: string, t: string)
    requires Entries(ds, f).Ok?
    ensures EntryHas(Entries(ds, f).value, id, t) <==> DocumentHas(ds, f, id, t)
    decreases |ds|
  {
    if ds != [] {
      var n := |ds| - 1;
      var d := ds[n];
      EntriesMembership(ds[..n], f, id, t);
      DocumentHasAppend(ds, f, id, t);
      if Selected(d, f) {
        EntryHasAppend(Entries(ds[..n], f).value, (d.titleId, Tokens(d, f).value), id, t);
      }
    }
  }

  /**
   * The index for `f` is inverted: `id` is listed under `t` iff a selected
   * document with that id has `t` among its tokens for `f`.
   */
  lemma IndexInverted(ds: seq<DocumentValue>, f: Field, t: string, id: string)
    requires BuildIndex(ds, f).Ok?
    ensures id in Get(BuildIndex(ds, f).value, t) <==> DocumentHas(ds, f, id, t)
  {
    IndexMembership(Entries(ds, f).value, t, id);
    EntriesMembership(ds, f, id, t);
  }

  predicate DistinctIds(ds: seq<DocumentValue>)
  {
    forall i, j :: 0 <= i < |ds| && 0 <= j < |ds| && i != j ==> ds[i].titleId != ds[j].titleId
  }

  /** With distinct ids, a document is listed under `t` iff its title has `t`. */
  lemma TitleIndexOfDocument(ds: seq<DocumentValue>, i: nat, t: string)
    requires BuildIndex(ds, TitleField).Ok? && DistinctIds(ds) && i < |ds|
    ensures ds[i].titleId in Get(BuildIndex(ds, TitleField).value, t) <==> ds[i].title.Some? && t in ds[i].title.value
  {
    EntriesThrow(ds, TitleField);
    IndexInverted(ds, TitleField, t, ds[i].titleId);
  }

  /** The same for the plot. */
  lemma PlotIndexOfDocument(ds: seq<DocumentValue>, i: nat, t: string)
    requires BuildIndex(ds, PlotField).Ok? && DistinctIds(ds) && i < |ds|
    ensures ds[i].titleId in Get(BuildIndex(ds, PlotField).value, t) <==> ds[i].plot.Some? && t in ds[i].plot.value
  {
    EntriesThrow(ds, PlotField);
    IndexInverted(ds, PlotField, t, ds[i].titleId);
  }

  /** The year index lists a document under its whole year, unless that year is unknown. */
  lemma YearIndexOfDocument(ds: seq<DocumentValue>, y: string, id: string)
    ensures BuildIndex(ds, YearField).Ok?
    ensures id in Get(BuildIndex(ds, YearField).value, y) <==>
      exists i :: 0 <= i < |ds| && ds[i].titleId == id && ds[i].year == Some(y) && !Contains(y, "????")
  {
    FilteredEntriesOk(ds, YearField);
    IndexInverted(ds, YearField, y, id);
  }

  /** Documents without an episode title never reach the episode index. */
  lemma EpisodeIndexOfDocument(ds: seq<DocumentValue>, t: string, id: string)
    ensures BuildIndex(ds, EpisodeField).Ok?
    ensures id in Get(BuildIndex(ds, EpisodeField).value, t) <==>
      exists i :: 0 <= i < |ds| && ds[i].titleId == id && ds[i].episodeTitle.Some? && t in ds[i].episodeTitle.value
  {
    FilteredEntriesOk(ds, EpisodeField);
    IndexInverted(ds, EpisodeField, t, id);
  }

  /** One stream of `buildIndexes`: every selected document passes through `processDocument`. */
  method IndexField(ds: seq<DocumentValue>, f: Field) returns (r: Result<PostingMap>)
    ensures r == BuildIndex(ds, f)
  {
    var index: PostingMap := map[];
    ghost var es: seq<(string, seq<string>)> := [];
    for i := 0 to |ds|
      invariant Entries(ds[..i], f) == Ok(es)
      invariant index == InvertedIndex(es)
    {
      var d := ds[i];
      assert ds[..i + 1][..i] == ds[..i];
      if Selected(d, f) {
        var tokens := Tokens(d, f);
        if tokens.None? {
          EntriesPrefixThrows(ds, i + 1, f);
          return Thrown(NullPointer);
        }
        index := ProcessDocument(d.titleId, tokens.value, index);
        assert (es + [(d.titleId, tokens.value)])[..|es|] == es;
        es := es + [(d.titleId, tokens.value)];
      }
    }
    assert ds[..|ds|] == ds;
    r := Ok(index);
  }

  /** Once a prefix throws, so does every longer one. */
  lemma {:induction false} EntriesPrefixThrows(ds: seq<DocumentValue>, n: nat, f: Field)
    requires n <= |ds| && Entries(ds[..n], f) == Thrown(NullPointer)
    ensures Entries(ds, f) == Thrown(NullPointer)
    decreases |ds| - n
  {
    if n < |ds| {
      assert ds[..n + 1][..n] == ds[..n];
      EntriesPrefixThrows(ds, n + 1, f);
    } else {
      assert ds[..n] == ds;
    }
  }

  class Indexer {
    var titleIndex: Option<PostingMap>
    var plotIndex: Option<PostingMap>
    var episodeIndex: Option<PostingMap>
    var yearIndex: Option<PostingMap>

    /** A new indexer has no maps yet. */
    constructor ()
      ensures titleIndex.None? && plotIndex.None? && episodeIndex.None? && yearIndex.None?
    {
      titleIndex, plotIndex, episodeIndex, yearIndex := None, None, None, None;
    }

    /**
     * `buildIndexes`: one map per field, each built from the documents in
     * list order. A null title or plot throws.
     */
    method BuildIndexes(docs: seq<Document>) returns (r: Result<()>)
      modifies this
      ensures var ds := old(Values(docs));
        r.Ok? <==> BuildIndex(ds, TitleField).Ok? && BuildIndex(ds, PlotField).Ok?
      ensures r.Thrown? ==> r.failure == NullPointer
      ensures r.Ok? ==> Indexes(old(Values(docs)))
      ensures r.Ok? ==> DoneBuilding()
    {
      var ds := Values(docs);
      var title := IndexField(ds, TitleField);
      if title.Thrown? {
        EntriesThrow(ds, TitleField);
        titleIndex := Some(map[]);
        return Thrown(title.failure);
      }
      titleIndex := Some(title.value);
      var plot := IndexField(ds, PlotField);
      if plot.Thrown? {
        EntriesThrow(ds, PlotField);
        plotIndex := Some(map[]);
        return Thrown(plot.failure);
      }
      plotIndex := Some(plot.value);
      FilteredEntriesOk(ds, EpisodeField);
      FilteredEntriesOk(ds, YearField);
      var episode := IndexField(ds, EpisodeField);
      episodeIndex := Some(episode.value);
      var year := IndexField(ds, YearField);
      yearIndex := Some(year.value);
      r := Ok(());
    }

    /** Every map holds what its stream builds from the documents `ds`. */
    predicate Indexes(ds: seq<DocumentValue>)
      reads this
    {
      && titleIndex.Some? && BuildIndex(ds, TitleField) == Ok(titleIndex.value)
      && plotIndex.Some? && BuildIndex(ds, PlotField) == Ok(plotIndex.value)
      && episodeIndex.Some? && BuildIndex(ds, EpisodeField) == Ok(episodeIndex.value)
      && yearIndex.Some? && BuildIndex(ds, YearField) == Ok(yearIndex.value)
    }

    /** `doneBuilding`: the year map is not among those it checks. */
    predicate DoneBuilding()
      reads this
    {
      titleIndex.Some? && plotIndex.Some? && episodeIndex.Some?
    }

    /** `getTitleIndex`: wrapping a null map throws. */
    function GetTitleIndex(): (r: Result<PostingMap>)
      reads this
      ensures r.Ok? <==> titleIndex.Some?
      ensures r.Ok? ==> r.value == titleIndex.value
      ensures r.Thrown? ==> r.failure == NullPointer
    {
      if titleIndex.Some? then Ok(titleIndex.value) else Thrown(NullPointer)
    }

    function GetPlotIndex(): (r: Result<PostingMap>)
      reads this
      ensures r.Ok? <==> plotIndex.Some?
      ensures r.Ok? ==> r.value == plotIndex.value
      ensures r.Thrown? ==> r.failure == NullPointer
    {
      if plotIndex.Some? then Ok(plotIndex.value) else Thrown(NullPointer)
    }

    function GetEpisodeIndex(): (r: Result<PostingMap>)
      reads this
      ensures r.Ok? <==> episodeIndex.Some?
      ensures r.Ok? ==> r.value == episodeIndex.value
      ensures r.Thrown? ==> r.failure == NullPointer
    {
      if episodeIndex.Some? then Ok(episodeIndex.value) else Thrown(NullPointer)
    }

    function GetYearIndex(): (r: Result<PostingMap>)
      reads this
      ensures r.Ok? <==> yearIndex.Some?
      ensures r.Ok? ==> r.value == yearIndex.value
      ensures r.Thrown? ==> r.failure == NullPointer
    {
      if yearIndex.Some? then Ok(yearIndex.value) else Thrown(NullPointer)
    }
  }
}
