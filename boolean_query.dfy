/**
 * The corpus parser and the query evaluator of the boolean retrieval engine.
 *
 * The parser reads the plot list line by line: a line starting with "MV: "
 * opens a document, lines starting with "PL:" collect plot text, and a
 * line starting with "------" closes the open document and appends it to
 * the corpus. The open document is never reset after it is appended, so a
 * second separator appends the same object again and overwrites its plot.
 */
module BooleanQueries {
  import opened JavaLang
  import opened Documents
  import opened ParseUtils
  import opened Indexers

  const HeaderPrefix := "MV: "
  const SeparatorPrefix := "------"
  const PlotPrefix := "PL:"
  /** The literal `PL: ` the plot lines lose before they are collected. */
  const PlotTag := "PL: "

  predicate IsHeader(line: string) { StartsWith(line, HeaderPrefix) }
  predicate IsSeparator(line: string) { StartsWith(line, SeparatorPrefix) }
  predicate IsPlotLine(line: string) { StartsWith(line, PlotPrefix) }

  /** No line is of two kinds at once: the prefixes already differ in their first character. */
  lemma LineKindsExclusive(line: string)
    ensures !(IsHeader(line) && IsSeparator(line))
    ensures !(IsHeader(line) && IsPlotLine(line))
    ensures !(IsSeparator(line) && IsPlotLine(line))
  {
    if |line| > 0 {
      assert IsHeader(line) ==> line[0] == line[..4][0] == 'M';
      assert IsSeparator(line) ==> line[0] == line[..6][0] == '-';
      assert IsPlotLine(line) ==> line[0] == line[..3][0] == 'P';
    }
  }

  // ---------------------------------------------------------------------------
  // Header lines
  // ---------------------------------------------------------------------------

  /** The header without the suspended marker and without every "MV: ". */
  function HeaderText(line: string): string
  {
    var unsuspended := if Contains(line, Suspended) then Replace(line, Suspended, "") else line;
    Replace(unsuspended, HeaderPrefix, "")
  }

  /** The episode part of a quoted header: the text between the last `{` and the last `}`. */
  function EpisodeText(text: string): Result<string>
  {
    Substring(text, LastIndexOf(text, '{') + 1, LastIndexOf(text, '}'))
  }

  /**
   * A quoted header (series or episode): the episode part is cut out first, then
   * the year; the title is what lies between the first and the last `"`.
   */
  function QuotedHeader(line: string, text: string): (r: Result<DocumentValue>)
  {
    match QuotedEpisode(text)
    case Thrown(f) => Thrown(f)
    case Ok((episodeTitle, rest)) =>
      var docType := if Contains(text, "{") then "episode" else "series";
      QuotedTitle(DocumentValue(line, None, None, episodeTitle, None, Some(docType)), rest)
  }

  /** A `{` makes the entry an episode: its title is tokenized and the `{...}` cut out. */
  function QuotedEpisode(text: string): Result<(Option<seq<string>>, string)>
  {
    if Contains(text, "{") then
      match EpisodeText(text)
      case Ok(e) => Ok((Some(Tokenize(e)), Replace(text, "{" + e + "}", "")))
      case Thrown(f) => Thrown(f)
    else Ok((None, text))
  }

  /** The year, then the title between the first and the last `"` of what is left. */
  function QuotedTitle(d: DocumentValue, rest: string): Result<DocumentValue>
  {
    match GetYear(rest)
    case Thrown(f) => Thrown(f)
    case Ok(year) =>
      var noYear := RemoveYear(rest, year);
      match Substring(noYear, IndexOf(noYear, '"') + 1, LastIndexOf(noYear, '"'))
      case Thrown(f) => Thrown(f)
      case Ok(title) => Ok(d.(title := Some(Tokenize(title)), year := Some(year)))
  }

  /**
   * An unquoted header (movie, television, video, videogame): the type marker
   * is cut out first, then the year; the title is the trimmed rest.
   */
  function PlainHeader(line: string, text: string): (r: Result<DocumentValue>)
  {
    var marker := TypeMarker(text);
    var rest := if marker.Some? then Replace(text, marker.value.0, "") else text;
    var docType := if marker.Some? then Some(marker.value.1) else None;
    match GetYear(rest)
    case Thrown(f) => Thrown(f)
    case Ok(year) =>
      var title := Trim(RemoveYear(rest, year));
      Ok(DocumentValue(line, Some(Tokenize(title)), None, None, Some(year), docType))
  }

  /**
   * The document a header line opens. Its id is the raw line, taken before any
   * marker is removed; the plot is still null; only quoted episode headers get
   * an episode title; an unquoted header without a marker gets no type.
   */
  function ParseHeader(line: string): (r: Result<DocumentValue>)
    ensures r.Ok? ==> r.value.titleId == line && r.value.plot.None? && r.value.title.Some? && r.value.year.Some?
    ensures r.Ok? ==> '(' !in r.value.year.value
    ensures r.Ok? ==> (r.value.episodeTitle.Some? <==> r.value.docType == Some("episode"))
    ensures r.Ok? && StartsWith(HeaderText(line), "\"") ==>
      r.value.docType == Some(if Contains(HeaderText(line), "{") then "episode" else "series")
    ensures r.Ok? && !StartsWith(HeaderText(line), "\"") ==>
      (r.value.docType.None? <==> TypeMarker(HeaderText(line)).None?)
    ensures r.Ok? ==> forall i :: 0 <= i < |r.value.title.value| ==> r.value.title.value[i] != ""
  {
    var text := HeaderText(line);
    var r := if StartsWith(text, "\"") then QuotedHeader(line, text) else PlainHeader(line, text);
    if r.Ok? then
      ParseHeaderTitleShape(line, text);
      r
    else r
  }

  lemma ParseHeaderTitleShape(line: string, text: string)
    ensures StartsWith(text, "\"") && QuotedHeader(line, text).Ok? ==>
      var t := QuotedHeader(line, text).value.title.value;
      forall i :: 0 <= i < |t| ==> t[i] != ""
    ensures !StartsWith(text, "\"") && PlainHeader(line, text).Ok? ==>
      var t := PlainHeader(line, text).value.title.value;
      forall i :: 0 <= i < |t| ==> t[i] != ""
  {
  }

  /** `new Document()` and the field assignments of the header branch. */
  method ReadHeader(line: string) returns (r: Result<Document>)
    ensures r.Ok? <==> ParseHeader(line).Ok?
    ensures r.Ok? ==> fresh(r.value) && r.value.Value() == ParseHeader(line).value
    ensures r.Thrown? ==> r.failure == ParseHeader(line).failure
  {
    var doc := new Document();
    doc.titleId := line;
    var text := line;
    if Contains(text, Suspended) {
      text := Replace(text, Suspended, "");
    }
    text := Replace(text, HeaderPrefix, "");
    var parsed: Result<()>;
    if StartsWith(text, "\"") {
      parsed := ReadQuoted(doc, line, text);
    } else {
      parsed := ReadPlain(doc, line, text);
    }
    if parsed.Thrown? {
      return Thrown(parsed.failure);
    }
    r := Ok(doc);
  }

  /** The quoted branch of the header code, writing the fields of `doc`. */
  method ReadQuoted(doc: Document, line: string, header: string) returns (r: Result<()>)
    requires doc.Value() == Blank.(titleId := line)
    modifies doc
    ensures r.Ok? <==> QuotedHeader(line, header).Ok?
    ensures r.Ok? ==> doc.Value() == QuotedHeader(line, header).value
    ensures r.Thrown? ==> r.failure == QuotedHeader(line, header).failure
  {
    var text := header;
    if Contains(text, "{") {
      doc.docType := Some("episode");
      var episode := EpisodeText(text);
      if episode.Thrown? {
        return Thrown(episode.failure);
      }
      doc.episodeTitle := Some(Tokenize(episode.value));
      text := Replace(text, "{" + episode.value + "}", "");
    } else {
      doc.docType := Some("series");
    }
    assert QuotedEpisode(header) == Ok((doc.episodeTitle, text));
    r := ReadQuotedTitle(doc, text);
  }

  /** The year and title part of the quoted branch. */
  method ReadQuotedTitle(doc: Document, rest: string) returns (r: Result<()>)
    modifies doc
    ensures r.Ok? <==> QuotedTitle(old(doc.Value()), rest).Ok?
    ensures r.Ok? ==> doc.Value() == QuotedTitle(old(doc.Value()), rest).value
    ensures r.Thrown? ==> r.failure == QuotedTitle(old(doc.Value()), rest).failure
  {
    var text := rest;
    var year := GetYear(text);
    if year.Thrown? {
      return Thrown(year.failure);
    }
    doc.year := Some(year.value);
    text := RemoveYear(text, year.value);
    var title := Substring(text, IndexOf(text, '"') + 1, LastIndexOf(text, '"'));
    if title.Thrown? {
      return Thrown(title.failure);
    }
    doc.title := Some(Tokenize(title.value));
    r := Ok(());
  }

  /** The unquoted branch of the header code, writing the fields of `doc`. */
  method ReadPlain(doc: Document, line: string, header: string) returns (r: Result<()>)
    requires doc.Value() == Blank.(titleId := line)
    modifies doc
    ensures r.Ok? <==> PlainHeader(line, header).Ok?
    ensures r.Ok? ==> doc.Value() == PlainHeader(line, header).value
    ensures r.Thrown? ==> r.failure == PlainHeader(line, header).failure
  {
    var text := HandleTypeSubString(doc, header);
    var year := GetYear(text);
    if year.Thrown? {
      return Thrown(year.failure);
    }
    doc.year := Some(year.value);
    text := RemoveYear(text, year.value);
    doc.title := Some(Tokenize(Trim(text)));
    r := Ok(());
  }

  // ---------------------------------------------------------------------------
  // The line state machine of `buildIndices`
  // ---------------------------------------------------------------------------

  /**
   * What one line of the plot list means to the loop. A header line carries
   * the outcome of parsing it; the header code has no effect but its result
   * and its exception, and the loop stops at the first exception, so parsing
   * every header up front gives the same outcome as parsing each in turn.
   */
  datatype Line = HeaderLine(doc: Result<DocumentValue>) | SeparatorLine | PlotLine(piece: string) | OtherLine

  /** The text one plot line adds to the collected plot. */
  function PlotPiece(line: string): string
  {
    " " + Replace(line, PlotTag, "")
  }

  /** The branch of the while-loop a line takes, tried in the order of the source. */
  function Classify(line: string): (r: Line)
    ensures r.HeaderLine? <==> IsHeader(line)
    ensures r.SeparatorLine? <==> IsSeparator(line)
    ensures r.PlotLine? <==> IsPlotLine(line)
  {
    LineKindsExclusive(line);
    if IsHeader(line) then HeaderLine(ParseHeader(line))
    else if IsSeparator(line) then SeparatorLine
    else if IsPlotLine(line) then PlotLine(PlotPiece(line))
    else OtherLine
  }

  function Classified(lines: seq<string>): (r: seq<Line>)
    ensures |r| == |lines|
    ensures forall i :: 0 <= i < |lines| ==> r[i] == Classify(lines[i])
  {
    seq(|lines|, i requires 0 <= i < |lines| => Classify(lines[i]))
  }

  /**
   * The parser's state as values: every document object created so far (by
   * creation order), the one currently open (`actualDocument`, by position),
   * the collected plot text and the corpus as a list of object positions, so
   * that an object appended twice is one object.
   */
  datatype ParseState = ParseState(
    objects: seq<DocumentValue>,
    current: Option<nat>,
    tmpPlot: string,
    emitted: seq<nat>)

  /** The positions point at objects, and every appended object has been given a plot. */
  predicate Wf(st: ParseState)
  {
    && (st.current.Some? ==> st.current.value < |st.objects|)
    && (forall k :: 0 <= k < |st.emitted| ==> st.emitted[k] < |st.objects|)
    && (forall k :: 0 <= k < |st.emitted| ==> st.objects[st.emitted[k]].plot.Some?)
  }

  /** Every object created so far has a title. */
  predicate Titled(st: ParseState)
  {
    forall j :: 0 <= j < |st.objects| ==> st.objects[j].title.Some?
  }

  /** Every header the lines carry that parsed gave a title. */
  predicate HeadersTitled(ls: seq<Line>)
  {
    forall i :: 0 <= i < |ls| && ls[i].HeaderLine? && ls[i].doc.Ok? ==> ls[i].doc.value.title.Some?
  }

  const Start := ParseState([], None, "", [])

  /** The state after a header opened the document `d`: a new object, now the open one. */
  function Opened(st: ParseState, d: DocumentValue): ParseState
  {
    st.(objects := st.objects + [d], current := Some(|st.objects|))
  }

  /** The state after a separator closed the open document `k`: plot set, buffer emptied, `k` appended. */
  function Closed(st: ParseState, k: nat): ParseState
    requires k < |st.objects|
  {
    st.(objects := st.objects[k := st.objects[k].(plot := Some(Tokenize(st.tmpPlot)))],
        tmpPlot := "",
        emitted := st.emitted + [k])
  }

  /** One iteration of the while-loop of `buildIndices`. */
  function Step(st: ParseState, line: Line): (r: Result<ParseState>)
    requires Wf(st)
    ensures r.Ok? ==> Wf(r.value)
    ensures r.Thrown? <==> line.HeaderLine? && line.doc.Thrown?
  {
    match line
    case HeaderLine(doc) =>
      if doc.Thrown? then Thrown(doc.failure) else Ok(Opened(st, doc.value))
    case SeparatorLine =>
      if st.current.None? then Ok(st) else Ok(Closed(st, st.current.value))
    case PlotLine(piece) => Ok(st.(tmpPlot := st.tmpPlot + piece))
    case OtherLine => Ok(st)
  }

  /** The loop over the remaining lines; a thrown exception ends it. */
  function Run(st: ParseState, ls: seq<Line>): (r: Result<ParseState>)
    requires Wf(st)
    ensures r.Ok? ==> Wf(r.value)
    decreases |ls|
  {
    if ls == [] then Ok(st)
    else match Step(st, ls[0])
      case Thrown(f) => Thrown(f)
      case Ok(next) => Run(next, ls[1..])
  }

  /** The corpus as the documents' final values, one entry per append. */
  function Emitted(st: ParseState): (r: seq<DocumentValue>)
    requires Wf(st)
    ensures |r| == |st.emitted|
    ensures forall k :: 0 <= k < |r| ==> r[k] == st.objects[st.emitted[k]]
  {
    seq(|st.emitted|, k requires 0 <= k < |st.emitted| => st.objects[st.emitted[k]])
  }

  /** The documents `buildIndices` hands to the indexer for the corpus `lines`. */
  function Corpus(lines: seq<string>): Result<seq<DocumentValue>>
  {
    match Run(Start, Classified(lines))
    case Ok(st) => Ok(Emitted(st))
    case Thrown(f) => Thrown(f)
  }

  /** The loop stops with the exception of the first header that does not parse. */
  lemma {:induction false} RunThrows(st: ParseState, ls: seq<Line>)
    requires Wf(st)
    ensures Run(st, ls).Thrown? <==> exists i :: 0 <= i < |ls| && ls[i].HeaderLine? && ls[i].doc.Thrown?
    ensures Run(st, ls).Thrown? ==> exists i :: 0 <= i < |ls| && ls[i] == HeaderLine(Thrown(Run(st, ls).failure))
    decreases |ls|
  {
    if ls != [] {
      var tail := ls[1..];
      assert forall i :: 0 < i < |ls| ==> ls[i] == tail[i - 1];
      if Step(st, ls[0]).Ok? {
        RunThrows(Step(st, ls[0]).value, tail);
        if Run(st, ls).Thrown? {
          var i :| 0 <= i < |tail| && tail[i] == HeaderLine(Thrown(Run(st, ls).failure));
          assert ls[i + 1] == tail[i];
        }
      } else {
        assert ls[0] == HeaderLine(Thrown(Run(st, ls).failure));
      }
    }
  }

  /** A separator that comes while no document is open changes nothing. */
  lemma SeparatorWithoutDocument(st: ParseState)
    requires Wf(st) && st.current.None?
    ensures Step(st, SeparatorLine) == Ok(st)
  {
  }

  /** Without a separator line nothing is appended, so a trailing entry is never emitted. */
  lemma {:induction false} NoSeparatorNoAppend(st: ParseState, ls: seq<Line>)
    requires Wf(st)
    requires forall i :: 0 <= i < |ls| ==> !ls[i].SeparatorLine?
    ensures Run(st, ls).Ok? ==> Run(st, ls).value.emitted == st.emitted
    decreases |ls|
  {
    if ls != [] && Step(st, ls[0]).Ok? {
      var tail := ls[1..];
      assert forall i :: 0 <= i < |tail| ==> tail[i] == ls[i + 1];
      NoSeparatorNoAppend(Step(st, ls[0]).value, tail);
    }
  }

  /** The tokens of an empty buffer: none. */
  lemma TokenizeEmpty()
    ensures Tokenize("") == []
  {
    assert ToLower("") == "";
    assert NonEmptyTokens([""]) == [] by { assert [""][1..] == []; }
  }

  /**
   * Two separators in a row append the open document twice; the second one
   * overwrites its plot with the tokens of the now empty buffer.
   */
  lemma DoubleSeparatorAppendsTwice(st: ParseState)
    requires Wf(st) && st.current.Some?
    ensures var k := st.current.value;
      var r := Run(st, [SeparatorLine, SeparatorLine]);
      && r.Ok?
      && r.value.emitted == st.emitted + [k, k]
      && |r.value.objects| == |st.objects|
      && r.value.objects[k].plot == Some([])
      && r.value.current == st.current
  {
    var k := st.current.value;
    var st1 := Closed(st, k);
    CloseOnce(st);
    CloseOnce(st1);
    RunAppend(st, [SeparatorLine], [SeparatorLine]);
    assert [SeparatorLine] + [SeparatorLine] == [SeparatorLine, SeparatorLine];
    TokenizeEmpty();
  }

  /** The plot text a run of plot lines contributes, in file order. */
  function PlotText(ls: seq<Line>): string
    requires forall i :: 0 <= i < |ls| ==> ls[i].PlotLine?
    decreases |ls|
  {
    if ls == [] then "" else ls[0].piece + PlotText(ls[1..])
  }

  /** Plot lines only extend the buffer, by their pieces in order. */
  lemma {:induction false} PlotLinesCollect(st: ParseState, ls: seq<Line>)
    requires Wf(st)
    requires forall i :: 0 <= i < |ls| ==> ls[i].PlotLine?
    ensures Run(st, ls) == Ok(st.(tmpPlot := st.tmpPlot + PlotText(ls)))
    decreases |ls|
  {
    if ls == [] {
      assert st.tmpPlot + "" == st.tmpPlot;
    } else {
      var next := st.(tmpPlot := st.tmpPlot + ls[0].piece);
      PlotLinesCollect(next, ls[1..]);
      assert next.tmpPlot + PlotText(ls[1..]) == st.tmpPlot + PlotText(ls);
    }
  }

  /** Running two stretches of lines one after the other. */
  lemma {:induction false} RunAppend(st: ParseState, a: seq<Line>, b: seq<Line>)
    requires Wf(st)
    ensures Run(st, a + b) == match Run(st, a) case Thrown(f) => Thrown(f) case Ok(mid) => Run(mid, b)
    decreases |a|
  {
    if a == [] {
      assert a + b == b;
    } else {
      assert (a + b)[0] == a[0] && (a + b)[1..] == a[1..] + b;
      if Step(st, a[0]).Ok? {
        RunAppend(Step(st, a[0]).value, a[1..], b);
      }
    }
  }

  /**
   * An entry, from its header through its plot lines to its separator, is
   * appended as a new document whose plot is the tokens of everything the
   * buffer held: the text collected before the header (plot lines before the
   * first header or after a separator) followed by its own plot lines.
   */
  lemma EntryAppendsDocument(st: ParseState, d: DocumentValue, plots: seq<Line>)
    requires Wf(st)
    requires forall i :: 0 <= i < |plots| ==> plots[i].PlotLine?
    ensures var n := |st.objects|;
      var r := Run(st, [HeaderLine(Ok(d))] + plots + [SeparatorLine]);
      && r.Ok?
      && r.value.emitted == st.emitted + [n]
      && r.value.objects == st.objects + [d.(plot := Some(Tokenize(st.tmpPlot + PlotText(plots))))]
      && r.value.current == Some(n)
      && r.value.tmpPlot == ""
  {
    EntryCloses(st, d, plots);
    ClosedAfterOpened(st, d, st.tmpPlot + PlotText(plots));
  }

  /** The entry's lines run to the state where its own object is closed. */
  lemma EntryCloses(st: ParseState, d: DocumentValue, plots: seq<Line>)
    requires Wf(st)
    requires forall i :: 0 <= i < |plots| ==> plots[i].PlotLine?
    ensures var st2 := Opened(st, d).(tmpPlot := st.tmpPlot + PlotText(plots));
      Run(st, [HeaderLine(Ok(d))] + plots + [SeparatorLine]) == Ok(Closed(st2, |st.objects|))
  {
    var st2 := Opened(st, d).(tmpPlot := st.tmpPlot + PlotText(plots));
    OpenThenCollect(st, d, plots);
    RunAppend(st, [HeaderLine(Ok(d))] + plots, [SeparatorLine]);
    CloseOnce(st2);
  }

  /** Closing the object just opened, with `text` in the buffer: it is appended with that plot. */
  lemma ClosedAfterOpened(st: ParseState, d: DocumentValue, text: string)
    ensures var n := |st.objects|;
      var r := Closed(Opened(st, d).(tmpPlot := text), n);
      && r.emitted == st.emitted + [n]
      && r.objects == st.objects + [d.(plot := Some(Tokenize(text)))]
      && r.current == Some(n)
      && r.tmpPlot == ""
  {
    var n := |st.objects|;
    var d' := d.(plot := Some(Tokenize(text)));
    assert (st.objects + [d])[n := d'] == st.objects + [d'];
  }

  /** A header followed by plot lines: the new document is open and the buffer extended. */
  lemma OpenThenCollect(st: ParseState, d: DocumentValue, plots: seq<Line>)
    requires Wf(st)
    requires forall i :: 0 <= i < |plots| ==> plots[i].PlotLine?
    ensures Run(st, [HeaderLine(Ok(d))] + plots) == Ok(Opened(st, d).(tmpPlot := st.tmpPlot + PlotText(plots)))
  {
    var ls := [HeaderLine(Ok(d))] + plots;
    assert ls[0] == HeaderLine(Ok(d)) && ls[1..] == plots;
    PlotLinesCollect(Opened(st, d), plots);
  }

  /** A single separator line with a document open closes it. */
  lemma CloseOnce(st: ParseState)
    requires Wf(st) && st.current.Some?
    ensures Run(st, [SeparatorLine]) == Ok(Closed(st, st.current.value))
  {
    assert [SeparatorLine][1..] == [];
  }

  /** The lines of a corpus file carry titled headers: every header that parses has a title. */
  lemma ClassifiedHeadersTitled(lines: seq<string>)
    ensures HeadersTitled(Classified(lines))
  {
  }

  /** Running titled headers creates titled objects only. */
  lemma {:induction false} RunKeepsTitles(st: ParseState, ls: seq<Line>)
    requires Wf(st) && Titled(st) && HeadersTitled(ls)
    ensures Run(st, ls).Ok? ==> Titled(Run(st, ls).value)
    decreases |ls|
  {
    if ls != [] && Step(st, ls[0]).Ok? {
      var tail := ls[1..];
      assert forall i :: 0 <= i < |tail| ==> tail[i] == ls[i + 1];
      var next := Step(st, ls[0]).value;
      assert Titled(next) by {
        if ls[0].HeaderLine? {
          assert ls[0].doc.value.title.Some?;
        } else if ls[0].SeparatorLine? && st.current.Some? {
          assert forall j :: 0 <= j < |next.objects| ==> next.objects[j].title == st.objects[j].title;
        }
      }
      RunKeepsTitles(next, tail);
    }
  }

  /** Every document the parser appends has a title and a plot, so indexing it never throws. */
  lemma EmittedIndexable(st: ParseState)
    requires Wf(st) && Titled(st)
    ensures BuildIndex(Emitted(st), TitleField).Ok? && BuildIndex(Emitted(st), PlotField).Ok?
  {
    EntriesThrow(Emitted(st), TitleField);
    EntriesThrow(Emitted(st), PlotField);
  }

  /** So the exit branch after the indexer in `buildIndices` is never taken. */
  lemma CorpusIndexable(lines: seq<string>)
    requires Corpus(lines).Ok?
    ensures BuildIndex(Corpus(lines).value, TitleField).Ok? && BuildIndex(Corpus(lines).value, PlotField).Ok?
  {
    ClassifiedHeadersTitled(lines);
    RunKeepsTitles(Start, Classified(lines));
    EmittedIndexable(Run(Start, Classified(lines)).value);
  }

  // ---------------------------------------------------------------------------
  // Queries
  // ---------------------------------------------------------------------------

  /** A query part, lower-cased and trimmed. */
  function Lowered(part: string): string
  {
    Trim(ToLower(part))
  }

  /** The query parts, each lower-cased and trimmed, in order. */
  function LoweredParts(parts: seq<string>): (r: seq<string>)
    ensures |r| == |parts|
    ensures forall i :: 0 <= i < |parts| ==> r[i] == Lowered(parts[i])
  {
    seq(|parts|, i requires 0 <= i < |parts| => Lowered(parts[i]))
  }

  /** The text after the first `:`, or the whole part when there is none. */
  function TermOf(lower: string): (r: string)
    ensures ':' in lower ==> r == lower[IndexOf(lower, ':') + 1..]
    ensures ':' !in lower ==> r == lower
  {
    lower[IndexOf(lower, ':') + 1..]
  }

  /** `ArrayList.indexOf`: the first position of `x`, or -1. */
  function IndexOfItem(xs: seq<string>, x: string): (r: int)
    ensures -1 <= r < |xs|
    ensures r == -1 <==> x !in xs
    ensures r >= 0 ==> xs[r] == x && x !in xs[..r]
    decreases |xs|
  {
    if xs == [] then -1
    else if xs[0] == x then 0
    else
      var r := IndexOfItem(xs[1..], x);
      assert r >= 0 ==> xs[1..][..r] == xs[1..r + 1];
      if r == -1 then -1 else r + 1
  }

  /** The inner loop of `searchPhrase`, from position `i` on. */
  function Scan(words: seq<string>, phrase: seq<string>, i: nat): (r: Result<bool>)
    ensures r.Thrown? ==> r.failure == IndexOutOfBounds
    decreases |phrase| - i
  {
    if i >= |phrase| then Ok(true)
    else if i >= |words| then Thrown(IndexOutOfBounds)
    else if phrase[i] != words[i] then Ok(false)
    else Scan(words, phrase, i + 1)
  }

  /**
   * The scan from `i` succeeds iff the rest of the phrase equals the words at
   * the same positions; it throws iff the words run out while they still agree.
   */
  lemma {:induction false} ScanMeaning(words: seq<string>, phrase: seq<string>, i: nat)
    ensures Scan(words, phrase, i) == Ok(true) <==>
      i >= |phrase| || (|phrase| <= |words| && phrase[i..] == words[i..|phrase|])
    ensures Scan(words, phrase, i).Thrown? <==>
      i < |phrase| && |words| < |phrase| && (|words| <= i || phrase[i..|words|] == words[i..])
    decreases |phrase| - i
  {
    if i < |phrase| && i < |words| {
      if phrase[i] == words[i] {
        ScanMeaning(words, phrase, i + 1);
        if |phrase| <= |words| {
          assert phrase[i..] == [phrase[i]] + phrase[i + 1..];
          assert words[i..|phrase|] == [words[i]] + words[i + 1..|phrase|];
        } else {
          assert phrase[i..|words|] == [phrase[i]] + phrase[i + 1..|words|];
          assert words[i..] == [words[i]] + words[i + 1..];
        }
      } else if |phrase| <= |words| {
        assert phrase[i..][0] != words[i..|phrase|][0];
      } else {
        assert phrase[i..|words|][0] != words[i..][0];
      }
    }
  }

  /** Whether `searchPhrase` keeps the candidate `e`. */
  function PhraseHit(e: string, phrase: seq<string>): (r: Result<bool>)
    ensures r.Thrown? ==> r.failure == IndexOutOfBounds
  {
    if phrase == [] then Thrown(IndexOutOfBounds)
    else
      var words := Split(e, [" "]);
      Scan(words, phrase, IndexOfItem(words, phrase[0]) + 1)
  }

  /** `searchPhrase` over the candidates, in order; a thrown exception ends it. */
  function PhraseAll(acc: set<string>, candidates: seq<string>, phrase: seq<string>): (r: Result<set<string>>)
    ensures r.Ok? ==> acc <= r.value
    ensures r.Thrown? ==> r.failure == IndexOutOfBounds
    decreases |candidates|
  {
    if candidates == [] then Ok(acc)
    else match PhraseHit(candidates[0], phrase)
      case Thrown(f) => Thrown(f)
      case Ok(hit) => PhraseAll(if hit then acc + {candidates[0]} else acc, candidates[1..], phrase)
  }

  /** `searchPhrase` keeps exactly the candidates the scan accepts, and what the set held before. */
  lemma {:induction false} PhraseAllMembership(acc: set<string>, candidates: seq<string>, phrase: seq<string>, x: string)
    requires PhraseAll(acc, candidates, phrase).Ok?
    ensures x in PhraseAll(acc, candidates, phrase).value <==>
      x in acc || (x in candidates && PhraseHit(x, phrase) == Ok(true))
    decreases |candidates|
  {
    if candidates != [] {
      var e := candidates[0];
      var hit := PhraseHit(e, phrase).value;
      PhraseAllMembership(if hit then acc + {e} else acc, candidates[1..], phrase, x);
      assert x in candidates <==> x == e || x in candidates[1..] by {
        assert candidates == [e] + candidates[1..];
      }
    }
  }

  /** `searchPhrase` throws iff the scan of some candidate throws. */
  lemma {:induction false} PhraseAllThrows(acc: set<string>, candidates: seq<string>, phrase: seq<string>)
    ensures PhraseAll(acc, candidates, phrase).Ok? <==>
      forall i :: 0 <= i < |candidates| ==> PhraseHit(candidates[i], phrase).Ok?
    decreases |candidates|
  {
    if candidates != [] {
      var e := candidates[0];
      if PhraseHit(e, phrase).Ok? {
        var hit := PhraseHit(e, phrase).value;
        PhraseAllThrows(if hit then acc + {e} else acc, candidates[1..], phrase);
        assert forall i :: 1 <= i < |candidates| ==> candidates[i] == candidates[1..][i - 1];
      }
    }
  }

  /** The body of the candidate loop of `searchPhrase`: does `e` contain the phrase? */
  method ContainsPhrase(e: string, phrase: seq<string>) returns (r: Result<bool>)
    ensures r == PhraseHit(e, phrase)
  {
    if phrase == [] {
      return Thrown(IndexOutOfBounds);
    }
    var words := Split(e, [" "]);
    var start := IndexOfItem(words, phrase[0]);
    var containsPhrase := true;
    var i := start + 1;
    while i < |phrase|
      invariant 0 <= i
      invariant Scan(words, phrase, start + 1) == Scan(words, phrase, i)
      decreases |phrase| - i
    {
      if i >= |words| {
        assert Scan(words, phrase, i) == Thrown(IndexOutOfBounds);
        return Thrown(IndexOutOfBounds);
      }
      if phrase[i] != words[i] {
        assert Scan(words, phrase, i) == Ok(false);
        containsPhrase := false;
        break;
      }
      i := i + 1;
    }
    assert Scan(words, phrase, start + 1) == Ok(containsPhrase);
    r := Ok(containsPhrase);
  }

  /** `searchPhrase`: one pass over the candidates, adding into the result set. */
  method SearchPhrase(result: set<string>, candidates: seq<string>, phrase: seq<string>) returns (r: Result<set<string>>)
    ensures r == PhraseAll(result, candidates, phrase)
  {
    var acc := result;
    for j := 0 to |candidates|
      invariant PhraseAll(result, candidates, phrase) == PhraseAll(acc, candidates[j..], phrase)
    {
      var e := candidates[j];
      assert candidates[j..][0] == e && candidates[j..][1..] == candidates[j + 1..];
      var hit := ContainsPhrase(e, phrase);
      if hit.Thrown? {
        return Thrown(hit.failure);
      }
      if hit.value {
        acc := acc + {e};
      }
    }
    r := Ok(acc);
  }

  /**
   * What a recognised clause does with its index: nothing when the term is not
   * a key; `charAt(0)` throws on an empty key; a key starting with `"` goes
   * down the phrase path; any other key adds its whole posting list.
   */
  function LookUp(index: PostingMap, term: string, acc: set<string>): (r: Result<set<string>>)
    ensures r.Ok? ==> acc <= r.value
  {
    if term !in index then Ok(acc)
    else if term == [] then Thrown(IndexOutOfBounds)
    else if term[0] == '"' then
      var phrase := Split(term, [" "]);
      if phrase == [] then Thrown(IndexOutOfBounds)
      else if phrase[0] !in index then Thrown(NullPointer)
      else PhraseAll(acc, index[phrase[0]], phrase)
    else Ok(acc + set e | e in index[term])
  }

  /**
   * One part of the query, given lower-cased and trimmed. Only the `title:`,
   * `plot:` and `type:` prefixes do anything; `episodeTitle:` and `year:` parts
   * are passed over. A title or plot part throws when that index was never built.
   */
  function Clause(lower: string, title: Option<PostingMap>, plot: Option<PostingMap>, types: PostingMap, acc: set<string>): (r: Result<set<string>>)
    ensures r.Ok? ==> acc <= r.value
  {
    var term := TermOf(lower);
    if StartsWith(lower, "title:") then
      if title.None? then Thrown(NullPointer) else LookUp(title.value, term, acc)
    else if StartsWith(lower, "plot:") then
      if plot.None? then Thrown(NullPointer) else LookUp(plot.value, term, acc)
    else if StartsWith(lower, "type:") then LookUp(types, term, acc)
    else Ok(acc)
  }

  /**
   * The loop over the lower-cased query parts, all adding into one shared set.
   * Lower-casing a part cannot fail, so doing it for all parts up front is the
   * same as doing it at the top of each iteration.
   */
  function Evaluate(lowers: seq<string>, title: Option<PostingMap>, plot: Option<PostingMap>, types: PostingMap, acc: set<string>): Result<set<string>>
    decreases |lowers|
  {
    if lowers == [] then Ok(acc)
    else match Clause(lowers[0], title, plot, types, acc)
      case Thrown(f) => Thrown(f)
      case Ok(next) => Evaluate(lowers[1..], title, plot, types, next)
  }

  /** `booleanQuery`: split on the literal "AND" (before lower-casing), evaluate each part. */
  function QueryResult(query: string, title: Option<PostingMap>, plot: Option<PostingMap>, types: PostingMap): Result<set<string>>
  {
    Evaluate(LoweredParts(Split(query, ["AND"])), title, plot, types, {})
  }

  /** The index a lower-cased part consults, if its prefix is one of those that do anything. */
  function Consulted(lower: string, title: PostingMap, plot: PostingMap, types: PostingMap): Option<PostingMap>
  {
    if StartsWith(lower, "title:") then Some(title)
    else if StartsWith(lower, "plot:") then Some(plot)
    else if StartsWith(lower, "type:") then Some(types)
    else None
  }

  /** A part whose term is a key that is empty or starts with `"`: it leaves the bare-term path. */
  predicate LeavesTermPath(lower: string, title: PostingMap, plot: PostingMap, types: PostingMap)
  {
    var term := TermOf(lower);
    var ix := Consulted(lower, title, plot, types);
    ix.Some? && term in ix.value && (term == [] || term[0] == '"')
  }

  /** The ids a bare-term part contributes: its term's whole posting list. */
  function TermPostings(lower: string, title: PostingMap, plot: PostingMap, types: PostingMap): set<string>
  {
    var term := TermOf(lower);
    var ix := Consulted(lower, title, plot, types);
    if ix.Some? && term in ix.value then set e | e in ix.value[term] else {}
  }

  /** A bare-term part adds its posting list to whatever the set held. */
  lemma BareClause(lower: string, title: PostingMap, plot: PostingMap, types: PostingMap, acc: set<string>)
    requires !LeavesTermPath(lower, title, plot, types)
    ensures Clause(lower, Some(title), Some(plot), types, acc) == Ok(acc + TermPostings(lower, title, plot, types))
  {
    var term := TermOf(lower);
    var ix := Consulted(lower, title, plot, types);
    if ix.Some? && term in ix.value {
      assert Clause(lower, Some(title), Some(plot), types, acc) == Ok(acc + set e | e in ix.value[term]);
    } else {
      assert TermPostings(lower, title, plot, types) == {};
      assert acc + {} == acc;
    }
  }

  /** The union of the contributions of the lower-cased parts. */
  function UnionPostings(lowers: seq<string>, title: PostingMap, plot: PostingMap, types: PostingMap): set<string>
    decreases |lowers|
  {
    if lowers == [] then {}
    else TermPostings(lowers[0], title, plot, types) + UnionPostings(lowers[1..], title, plot, types)
  }

  lemma {:induction false} UnionPostingsMembership(lowers: seq<string>, title: PostingMap, plot: PostingMap, types: PostingMap, x: string)
    ensures x in UnionPostings(lowers, title, plot, types) <==>
      exists i :: 0 <= i < |lowers| && x in TermPostings(lowers[i], title, plot, types)
    decreases |lowers|
  {
    if lowers != [] {
      var tail := lowers[1..];
      UnionPostingsMembership(tail, title, plot, types, x);
      if x in UnionPostings(tail, title, plot, types) {
        var i :| 0 <= i < |tail| && x in TermPostings(tail[i], title, plot, types);
        assert lowers[i + 1] == tail[i];
      }
      if exists i :: 0 <= i < |lowers| && x in TermPostings(lowers[i], title, plot, types) {
        var i :| 0 <= i < |lowers| && x in TermPostings(lowers[i], title, plot, types);
        if i > 0 {
          assert tail[i - 1] == lowers[i];
        }
      }
    }
  }

  /**
   * The clauses are combined by union, not intersection: when every part
   * stays on the bare-term path, the result is the union of the posting lists.
   */
  lemma {:induction false} EvaluateIsUnion(lowers: seq<string>, title: PostingMap, plot: PostingMap, types: PostingMap, acc: set<string>)
    requires forall i :: 0 <= i < |lowers| ==> !LeavesTermPath(lowers[i], title, plot, types)
    ensures Evaluate(lowers, Some(title), Some(plot), types, acc) == Ok(acc + UnionPostings(lowers, title, plot, types))
    decreases |lowers|
  {
    if lowers != [] {
      var next := acc + TermPostings(lowers[0], title, plot, types);
      BareClause(lowers[0], title, plot, types, acc);
      var tail := lowers[1..];
      assert forall i :: 0 <= i < |tail| ==> tail[i] == lowers[i + 1];
      EvaluateIsUnion(tail, title, plot, types, next);
      assert next + UnionPostings(tail, title, plot, types) == acc + UnionPostings(lowers, title, plot, types);
    } else {
      assert acc + {} == acc;
    }
  }

  /** A term with a space in it is never a key of a space-free index, so its clause adds nothing. */
  lemma SpacedTermAddsNothing(lower: string, title: PostingMap, plot: PostingMap, types: PostingMap, acc: set<string>)
    requires ' ' in TermOf(lower)
    requires forall t :: t in title ==> ' ' !in t
    requires forall t :: t in plot ==> ' ' !in t
    requires forall t :: t in types ==> ' ' !in t
    ensures Clause(lower, Some(title), Some(plot), types, acc) == Ok(acc)
  {
  }

  /** The keys of the title and plot indices are tokens, and tokens hold no space. */
  lemma IndexKeysHaveNoSpace(ds: seq<DocumentValue>, f: Field, t: string)
    requires f == TitleField || f == PlotField
    requires BuildIndex(ds, f).Ok?
    requires forall i :: 0 <= i < |ds| ==> Tokens(ds[i], f).Some? && exists s :: Tokens(ds[i], f).value == Tokenize(s)
    requires t in BuildIndex(ds, f).value
    ensures ' ' !in t
  {
    var es := Entries(ds, f).value;
    IndexKeys(es, t);
    var k :| 0 <= k < |es| && t in es[k].1;
    EntriesMembership(ds, f, es[k].0, t);
    assert EntryHas(es, es[k].0, t);
    var i :| 0 <= i < |ds| && Selected(ds[i], f) && ds[i].titleId == es[k].0 && Tokens(ds[i], f).Some? && t in Tokens(ds[i], f).value;
    var s :| Tokens(ds[i], f).value == Tokenize(s);
    TokensShape(s);
    assert DelimiterFree(t);
    assert forall c :: 0 <= c < |t| ==> t[c] != ' ';
  }

  /** A lower-cased, trimmed part holds no upper-case letter ... */
  lemma LoweredIsLowerCase(part: string)
    ensures IsLowerCase(Lowered(part))
  {
    var l := ToLower(part);
    var t := Trim(l);
    TrimShape(l);
    var b := |l| - |TrimStart(l)|;
    forall j | 0 <= j < |t| ensures !('A' <= t[j] <= 'Z') {
      assert t[j] == l[b + j];
    }
  }

  /** ... and a text without upper-case letters never starts with `episodeTitle:` ... */
  lemma LowerCaseIsNotEpisodeTitle(l: string)
    requires IsLowerCase(l)
    ensures !StartsWith(l, "episodeTitle:")
  {
    if |l| >= 13 {
      assert l[..13][7] == l[7] && !('A' <= l[7] <= 'Z');
    }
  }

  /** ... so the `episodeTitle:` branch can never be taken. */
  lemma EpisodeTitleBranchDead(part: string)
    ensures !StartsWith(Lowered(part), "episodeTitle:")
  {
    LoweredIsLowerCase(part);
    LowerCaseIsNotEpisodeTitle(Lowered(part));
  }

  /** Before the indices are built, a title clause throws a NullPointerException. */
  lemma TitleQueryBeforeBuild(query: string, plot: Option<PostingMap>, types: PostingMap)
    requires Split(query, ["AND"]) != [] && StartsWith(Lowered(Split(query, ["AND"])[0]), "title:")
    ensures QueryResult(query, None, plot, types) == Thrown(NullPointer)
  {
  }

  /** The split is case-sensitive: a query without the capitals "AND" is one single clause. */
  lemma LowerCaseAndDoesNotSplit(query: string)
    requires !Contains(query, "AND")
    ensures Split(query, ["AND"]) == [query]
  {
    SplitWithoutMatch(query, ["AND"]);
  }

  // ---------------------------------------------------------------------------
  // The parsing loop over heap objects
  // ---------------------------------------------------------------------------

  /**
   * The parser's variables agree with the value state `st`: `objs` lists the
   * distinct document objects created so far, holding the values of
   * `st.objects`; `actualDocument` is the open one and `documents` the
   * appended ones, by position.
   */
  ghost predicate Mirrors(objs: seq<Document>, st: ParseState, actualDocument: Document?, tmpPlot: string, documents: seq<Document>)
    reads set k | 0 <= k < |objs| :: objs[k]
  {
    && |objs| == |st.objects|
    && (forall k :: 0 <= k < |objs| ==> objs[k].Value() == st.objects[k])
    && (forall a, b :: 0 <= a < b < |objs| ==> objs[a] != objs[b])
    && (st.current.None? <==> actualDocument == null)
    && (st.current.Some? ==> st.current.value < |objs| && actualDocument == objs[st.current.value])
    && tmpPlot == st.tmpPlot
    && |documents| == |st.emitted|
    && (forall k :: 0 <= k < |documents| ==> st.emitted[k] < |objs| && documents[k] == objs[st.emitted[k]])
  }

  /** One more line consumed: the run from `i` is the step at `i` and then the run from `i + 1`. */
  lemma RunFrom(st: ParseState, ls: seq<Line>, i: nat)
    requires Wf(st) && i < |ls|
    ensures Step(st, ls[i]).Ok? ==> Run(st, ls[i..]) == Run(Step(st, ls[i]).value, ls[i + 1..])
    ensures Step(st, ls[i]).Thrown? ==> Run(st, ls[i..]) == Thrown(Step(st, ls[i]).failure)
  {
    assert ls[i..][0] == ls[i] && ls[i..][1..] == ls[i + 1..];
  }

  /** Once every line is consumed, the corpus is what the final state appended. */
  lemma CorpusOfFinal(lines: seq<string>, st: ParseState)
    requires Wf(st) && Run(Start, Classified(lines)) == Run(st, Classified(lines)[|lines|..])
    ensures Corpus(lines) == Ok(Emitted(st))
  {
    assert Classified(lines)[|lines|..] == [];
  }

  /** The appended objects hold the values the state says were appended. */
  lemma MirroredValues(objs: seq<Document>, st: ParseState, actualDocument: Document?, tmpPlot: string, documents: seq<Document>)
    requires Wf(st) && Mirrors(objs, st, actualDocument, tmpPlot, documents)
    ensures Values(documents) == Emitted(st)
  {
  }

  /** A header line: a new document object, now the open one, or the exception its parse throws. */
  method OpenDocument(line: string, actualDocument: Document?, tmpPlot: string, documents: seq<Document>,
                      ghost objs: seq<Document>, ghost st: ParseState)
    returns (r: Result<Document>, ghost objs': seq<Document>, ghost st': ParseState)
    requires Wf(st) && Titled(st) && Mirrors(objs, st, actualDocument, tmpPlot, documents)
    ensures r.Ok? <==> ParseHeader(line).Ok?
    ensures r.Thrown? ==> r.failure == ParseHeader(line).failure
    ensures r.Ok? ==> st' == Opened(st, ParseHeader(line).value) && Wf(st') && Titled(st')
    ensures r.Ok? ==> fresh(r.value) && objs' == objs + [r.value]
    ensures r.Ok? ==> Mirrors(objs', st', r.value, tmpPlot, documents)
  {
    objs', st' := objs, st;
    r := ReadHeader(line);
    if r.Ok? {
      OpenedMirrors(objs, st, actualDocument, tmpPlot, documents, r.value);
      objs' := objs + [r.value];
      st' := Opened(st, r.value.Value());
    }
  }

  /** Opening a new titled object keeps the parser's variables in step with the state. */
  lemma OpenedMirrors(objs: seq<Document>, st: ParseState, actualDocument: Document?, tmpPlot: string,
                      documents: seq<Document>, doc: Document)
    requires Wf(st) && Titled(st) && Mirrors(objs, st, actualDocument, tmpPlot, documents)
    requires forall k :: 0 <= k < |objs| ==> objs[k] != doc
    requires doc.Value().title.Some?
    ensures Wf(Opened(st, doc.Value())) && Titled(Opened(st, doc.Value()))
    ensures Mirrors(objs + [doc], Opened(st, doc.Value()), doc, tmpPlot, documents)
  {
  }

  /** A separator while a document is open: its plot is set and it is appended. */
  method CloseDocument(actualDocument: Document, tmpPlot: string, documents: seq<Document>,
                       ghost objs: seq<Document>, ghost st: ParseState)
    returns (documents': seq<Document>, ghost st': ParseState)
    requires Wf(st) && Titled(st) && Mirrors(objs, st, actualDocument, tmpPlot, documents)
    modifies actualDocument
    ensures st.current.Some? && st' == Closed(st, st.current.value) && Wf(st') && Titled(st')
    ensures Mirrors(objs, st', actualDocument, "", documents')
  {
    var c := st.current.value;
    actualDocument.plot := Some(Tokenize(tmpPlot));
    documents' := documents + [actualDocument];
    st' := Closed(st, c);
    forall k | 0 <= k < |objs| ensures objs[k].Value() == st'.objects[k] {
      if k != c { assert objs[k] != objs[c]; }
    }
  }

  /** One iteration of the while-loop of `buildIndices`, on the parser's variables. */
  method ParseLine(line: string, actualDocument: Document?, tmpPlot: string, documents: seq<Document>,
                   ghost objs: seq<Document>, ghost st: ParseState)
    returns (r: Result<()>, actualDocument': Document?, tmpPlot': string, documents': seq<Document>,
             ghost objs': seq<Document>, ghost st': ParseState)
    requires Wf(st) && Titled(st) && Mirrors(objs, st, actualDocument, tmpPlot, documents)
    modifies actualDocument
    ensures r.Ok? <==> Step(st, Classify(line)).Ok?
    ensures r.Thrown? ==> r.failure == Step(st, Classify(line)).failure
    ensures r.Ok? ==> st' == Step(st, Classify(line)).value && Titled(st')
    ensures r.Ok? ==> Mirrors(objs', st', actualDocument', tmpPlot', documents')
    ensures r.Ok? ==> actualDocument' == actualDocument || fresh(actualDocument')
  {
    r, actualDocument', tmpPlot', documents', objs', st' := Ok(()), actualDocument, tmpPlot, documents, objs, st;
    if IsHeader(line) {
      var header;
      header, objs', st' := OpenDocument(line, actualDocument, tmpPlot, documents, objs, st);
      if header.Thrown? {
        r := Thrown(header.failure);
        return;
      }
      actualDocument' := header.value;
    } else if IsSeparator(line) {
      if actualDocument != null {
        documents', st' := CloseDocument(actualDocument, tmpPlot, documents, objs, st);
        tmpPlot' := "";
      }
    } else if IsPlotLine(line) {
      tmpPlot' := tmpPlot + PlotPiece(line);
      st' := st.(tmpPlot := st.tmpPlot + PlotPiece(line));
    }
  }

  /**
   * The while-loop of `buildIndices` over the corpus lines: the documents
   * appended, as fresh objects holding the corpus values, or the exception
   * that ended the loop.
   */
  method ParseCorpus(lines: seq<string>) returns (r: Result<seq<Document>>)
    ensures r.Ok? <==> Corpus(lines).Ok?
    ensures r.Thrown? ==> r.failure == Corpus(lines).failure
    ensures r.Ok? ==> Values(r.value) == Corpus(lines).value
  {
    var documents: seq<Document> := [];
    var actualDocument: Document? := null;
    var tmpPlot := "";
    ghost var ls := Classified(lines);
    ghost var objs: seq<Document> := [];
    ghost var st := Start;
    for i := 0 to |lines|
      invariant Wf(st) && Titled(st)
      invariant Run(Start, ls) == Run(st, ls[i..])
      invariant actualDocument != null ==> fresh(actualDocument)
      invariant Mirrors(objs, st, actualDocument, tmpPlot, documents)
    {
      RunFrom(st, ls, i);
      var outcome: Result<()>;
      outcome, actualDocument, tmpPlot, documents, objs, st := ParseLine(lines[i], actualDocument, tmpPlot, documents, objs, st);
      if outcome.Thrown? {
        return Thrown(outcome.failure);
      }
    }
    CorpusOfFinal(lines, st);
    MirroredValues(objs, st, actualDocument, tmpPlot, documents);
    r := Ok(documents);
  }

  // ---------------------------------------------------------------------------
  // The searcher
  // ---------------------------------------------------------------------------

  class BooleanQuery {
    const indexer: Indexer

    constructor ()
      ensures fresh(indexer)
      ensures indexer.titleIndex.None? && indexer.plotIndex.None? && indexer.episodeIndex.None? && indexer.yearIndex.None?
    {
      indexer := new Indexer();
    }

    /**
     * `buildIndices`, with the corpus file given as its lines: the parsing loop,
     * then the indexer over the documents appended. An exception thrown while
     * parsing a header ends it; indexing the parsed documents never throws, so
     * the exit branch after it is never taken.
     */
    method BuildIndices(lines: seq<string>) returns (r: Result<()>)
      modifies indexer
      ensures r.Ok? <==> Corpus(lines).Ok?
      ensures r.Thrown? ==> r.failure == Corpus(lines).failure
      ensures r.Ok? ==> indexer.Indexes(Corpus(lines).value) && indexer.DoneBuilding()
    {
      var parsed := ParseCorpus(lines);
      if parsed.Thrown? {
        return Thrown(parsed.failure);
      }
      CorpusIndexable(lines);
      var indexed := indexer.BuildIndexes(parsed.value);
      r := Ok(());
    }

    /**
     * `booleanQuery`, with the type index (which the indexer does not build)
     * given as a map. Nothing is changed.
     */
    method Query(queryString: string, typeIndex: PostingMap) returns (r: Result<set<string>>)
      ensures r == QueryResult(queryString, indexer.titleIndex, indexer.plotIndex, typeIndex)
    {
      var result: set<string> := {};
      var searchParts := Split(queryString, ["AND"]);
      ghost var lowers := LoweredParts(searchParts);
      for i := 0 to |searchParts|
        invariant QueryResult(queryString, indexer.titleIndex, indexer.plotIndex, typeIndex)
          == Evaluate(lowers[i..], indexer.titleIndex, indexer.plotIndex, typeIndex, result)
      {
        var part := searchParts[i];
        var lowerCasePart := Trim(ToLower(part));
        assert lowers[i..][0] == lowerCasePart && lowers[i..][1..] == lowers[i + 1..];
        var step := QueryPart(lowerCasePart, typeIndex, result);
        if step.Thrown? {
          return Thrown(step.failure);
        }
        result := step.value;
      }
      r := Ok(result);
    }

    /** The body of the loop of `booleanQuery`, for one lower-cased part. */
    method QueryPart(lowerCasePart: string, typeIndex: PostingMap, result: set<string>) returns (r: Result<set<string>>)
      ensures r == Clause(lowerCasePart, indexer.titleIndex, indexer.plotIndex, typeIndex, result)
    {
      var term := lowerCasePart[IndexOf(lowerCasePart, ':') + 1..];
      assert term == TermOf(lowerCasePart);
      r := Ok(result);
      if StartsWith(lowerCasePart, "title:") {
        var titleIndex := indexer.GetTitleIndex();
        if titleIndex.Thrown? {
          return Thrown(titleIndex.failure);
        }
        r := LookUpTerm(titleIndex.value, term, result);
      } else if StartsWith(lowerCasePart, "plot:") {
        var plotIndex := indexer.GetPlotIndex();
        if plotIndex.Thrown? {
          return Thrown(plotIndex.failure);
        }
        r := LookUpTerm(plotIndex.value, term, result);
      } else if StartsWith(lowerCasePart, "type:") {
        r := LookUpTerm(typeIndex, term, result);
      }
    }
  }

  /** The branch body shared by the title, plot and type clauses. */
  method LookUpTerm(index: PostingMap, term: string, result: set<string>) returns (r: Result<set<string>>)
    ensures r == LookUp(index, term, result)
  {
    if term !in index {
      return Ok(result);
    }
    if term == [] {
      return Thrown(IndexOutOfBounds);
    }
    if term[0] == '"' {
      var phraseTokens := Split(term, [" "]);
      if phraseTokens == [] {
        return Thrown(IndexOutOfBounds);
      }
      if phraseTokens[0] !in index {
        return Thrown(NullPointer);
      }
      r := SearchPhrase(result, index[phraseTokens[0]], phraseTokens);
    } else {
      var acc := result;
      var postings := index[term];
      for j := 0 to |postings|
        invariant acc == result + set e | e in postings[..j]
      {
        assert forall e :: e in postings[..j + 1] <==> e in postings[..j] || e == postings[j] by {
          assert postings[..j + 1] == postings[..j] + [postings[j]];
        }
        acc := acc + {postings[j]};
      }
      assert postings[..|postings|] == postings;
      r := Ok(acc);
    }
  }
}
