# imdbCrawler core, modelled in Dafny

imdbCrawler is a set of information-retrieval exercises built on the IMDb
plot list (`plot.list`), on WordNet and on crawled movie records. This
project models the core of it:

- **Plot-list parsing and boolean search** (`ue_inforet_bool`). A loop reads
  the plot list line by line. A header line (`MV: ...`) opens a new document:
  a movie, a series, an episode, a television title, a video or a videogame.
  Its title, year, episode title and type are read from the header. Plot
  lines (`PL: ...`) are collected, and a separator (`------...`) sets the
  collected plot on the open document and appends it to the corpus.
- **The indexer.** It builds one inverted index (token to list of document
  ids) per field: title, plot, episode title and year.
- **The boolean query.** It splits the query at the literal `AND`. Each
  `title:`, `plot:` or `type:` part adds its posting list (or its phrase
  matches) to one shared result set.
- **Tokenizing** (`ParseUtils`). Text is lower-cased, cut at blanks, dots,
  commas, colons, question marks and exclamation marks, and the empty pieces
  are dropped. `ParseUtils` also extracts the year and the type marker.
- **WordNet synonym sets** (`BooleanQueryWordnet.buildSynsets`). The four
  `data.*` files are read into a combined synonym table and four
  part-of-speech tables that share their lists. The four `*.exc` files of
  irregular forms then add exception entries, which finally replace the
  synset entries with the same key.
- **Query extension** (`QueryExtender.modifiyQuery`). Every `key:term` whose
  term has synonyms is replaced by `(key:term OR key:syn1 OR ...)`.
- **Bigram counting** (`CoOccurrences`, `CoOccurrence`, `StopWordHelper`).
  The counter tracks how often each token and each ordered pair of adjacent
  tokens occurs. Candidates are the pairs whose tokens are both frequent and
  not stop words.
- **`Utils.parseNumber`.** It keeps only the digits and dots of a text and
  reads the rest as a `long`.
- **Movie queries** (`IMDBQueries`):
  - uncreative writers and workhorse, two top-ten counts;
  - pillars of storytelling;
  - the red-planet filters;
  - magic couples, which is unimplemented;
  - `Tuple.equals`.

## How the model is built

**Java strings.** Module `JavaLang` gives the Java string operations the
core relies on, with Java's own edge cases:
- `split` drops trailing empty pieces but keeps a leading one;
- `replace` works left to right, without overlaps;
- `trim` removes every character up to U+0020;
- `substring` throws `StringIndexOutOfBoundsException` on a bad range;
- `int` arithmetic wraps around in two's complement.

**Exceptions.** Thrown exceptions are a `Result` value (`Thrown(kind)`).
`System.exit` is one more failure kind, so a run that would end the program
returns that failure.

**Objects updated in place are classes.** These are `Document`, `Indexer`,
`BooleanQuery`, `BooleanQueryWordnet`, `CoOccurrences` and `StopWordHelper`.

**The corpus parser.** It is proved against a value-level specification
(`BooleanQueries.Step`, `Run` and `Corpus`). That specification keeps
object identity: the same document object can be appended twice (two
separators in a row), and a later plot assignment then changes both
entries.

**WordNet tables.** The lists shared between the combined table and the
part-of-speech tables are modelled as a list store. Each table maps a key
to a list position, so a merge through one table is seen through the
other.

**Files and hash-map order.** Files are given as their lines, and a file
that cannot be read is `None`. A hash map's iteration order is not fixed,
so the methods that enumerate a map (`EntrySet`, `Candidates`) promise
only what holds for every order.

## Model

| member | source | states |
|---|---|---|
| `JavaLang.LowerChar` | src/main/java/ue_inforet_bool/ParseUtils.java:73 | Only the ASCII capitals change; each moves 32 code points down, and every other character is kept |
| `JavaLang.ToLower` | src/main/java/ue_inforet_bool/ParseUtils.java:73 | Lower-casing keeps the length and acts character by character |
| `JavaLang.ToLowerAppend` | src/main/java/ue_inforet_bool/ParseUtils.java:73 | Lower-casing distributes over concatenation |
| `JavaLang.ToLowerIdempotent` | src/main/java/ue_inforet_bool/ParseUtils.java:73 | Lower-casing twice is lower-casing once |
| `JavaLang.ContainsChar` | src/main/java/ue_inforet_bool_wordnet_study/BooleanQueryWordnet.java:163 | `contains` with a one-character pattern holds exactly when the character occurs |
| `JavaLang.IndexOf` | src/main/java/ue_inforet_bool/BooleanQuery.java:218 | `indexOf` gives -1 exactly when the character is absent; otherwise the position holds it and no earlier one does |
| `JavaLang.LastIndexOf` | src/main/java/ue_inforet_bool/ParseUtils.java:54 | `lastIndexOf` gives -1 exactly when the character is absent; otherwise the position holds it and no later one does |
| `JavaLang.Substring` | src/main/java/ue_inforet_bool/ParseUtils.java:54 | `substring(b, e)` succeeds exactly when 0 <= b <= e <= length, and then gives that slice; otherwise it throws |
| `JavaLang.ReplaceByEmptyLength` | src/main/java/IMDBQueries.java:144-145 | Deleting every occurrence of a pattern shortens the text by the pattern's length per occurrence |
| `JavaLang.ReplaceAbsent` | src/main/java/ue_inforet_bool/ParseUtils.java:58 | A text that does not contain the pattern comes back from `replace` unchanged |
| `JavaLang.Replace` | src/main/java/ue_inforet_bool/ParseUtils.java:58 | `String.replace`: a left-to-right scan that replaces each occurrence not overlapping an earlier replaced one; its meaning is stated by `ReplaceAfterFree`, `ReplaceAbsent` and `ReplaceByEmptyLength` |
| `JavaLang.ReplaceAfterFree` | src/main/java/ue_inforet_bool/ParseUtils.java:58 | Text before the first character of the pattern is copied, the occurrence that follows it is replaced, and the scan starts again right after that occurrence |
| `JavaLang.OccurrencesPositive` | src/main/java/IMDBQueries.java:138 | There is an occurrence to replace exactly when the text `contains` the pattern |
| `JavaLang.TrimShape` | src/main/java/ue_inforet_bool/BooleanQuery.java:217 | `trim` keeps one contiguous stretch of the text, without leading or trailing characters at or below U+0020 |
| `JavaLang.Trim` | src/main/java/ue_inforet_bool/BooleanQuery.java:217 | `String.trim`: cuts the characters up to U+0020 at both ends; its shape is stated by `TrimShape` |
| `JavaLang.MatchAt` | src/main/java/ue_inforet_bool/ParseUtils.java:15 | The alternation matches at a position exactly when one of its alternatives starts there, and the match is that alternative |
| `JavaLang.DropTrailingEmpty` | src/main/java/ue_inforet_bool/ParseUtils.java:76 | `split` drops exactly the empty pieces at the end and keeps everything before them |
| `JavaLang.SplitWithoutMatch` | src/main/java/ue_inforet_bool/BooleanQuery.java:212 | A text in which no alternative occurs splits into itself alone |
| `JavaLang.PiecesAvoidChar` | src/main/java/ue_inforet_bool/BooleanQuery.java:312 | Splitting at a single character gives pieces that never hold that character |
| `JavaLang.SplitJoin` | src/main/java/ue_inforet_bool/BooleanQuery.java:312 | Splitting at a character undoes joining at it, when no word holds the character and the last word is not empty |
| `JavaLang.Split` | src/main/java/ue_inforet_bool/BooleanQuery.java:212 | `String.split` at an alternation of literals: the whole text when nothing matches, otherwise the pieces without the trailing empty ones; stated by `DropTrailingEmpty`, `SplitWithoutMatch`, `PiecesAvoidChar` and `SplitJoin` |
| `JavaLang.Wrap32` | src/main/java/CoOccurrence.java:41 | Java `int` addition: the result is in the `int` range and congruent to the exact sum modulo 2^32 |
| `ParseUtils.NonEmptyTokens` | src/main/java/ue_inforet_bool/ParseUtils.java:77-82 | The kept tokens are exactly the non-empty pieces, and none of them is empty |
| `ParseUtils.NonEmptyTokensDropTrailing` | src/main/java/ue_inforet_bool/ParseUtils.java:76-82 | Dropping trailing empty pieces in `split` makes no difference once empty pieces are filtered |
| `ParseUtils.DelimiterMatch` | src/main/java/ue_inforet_bool/ParseUtils.java:15 | The delimiter pattern matches exactly at the six delimiter characters, one character long |
| `ParseUtils.Tokenize` | src/main/java/ue_inforet_bool/ParseUtils.java:72-85 | `tokenize`: lower-case, split at the delimiters, drop empty pieces; its meaning is stated by `TokenizeIsWords` and `TokensShape` |
| `ParseUtils.TokenizeIsWords` | src/main/java/ue_inforet_bool/ParseUtils.java:72-85 | `tokenize` equals an independent character scan: the maximal delimiter-free runs of the lower-cased text |
| `ParseUtils.TokensShape` | src/main/java/ue_inforet_bool/ParseUtils.java:61-85 | No token is empty, holds a delimiter or holds an upper-case ASCII letter |
| `ParseUtils.TokenizeAtDelimiter` | src/main/java/ue_inforet_bool/ParseUtils.java:72-85 | A delimiter cuts the text into two halves that are tokenized independently |
| `ParseUtils.TokenizeJoinRoundTrip` | src/main/java/ue_inforet_bool/ParseUtils.java:72-85 | Tokenizing the tokens joined by single blanks gives the same tokens back |
| `ParseUtils.GetYear` | src/main/java/ue_inforet_bool/ParseUtils.java:53-55 | `getYear` succeeds exactly when the last `(` comes before the last `)`, and throws otherwise |
| `ParseUtils.GetYearSplitsLine` | src/main/java/ue_inforet_bool/ParseUtils.java:53-55 | The line is the text up to the last `(`, then the year, then the text from the last `)` on |
| `ParseUtils.GetYearDelimiters` | src/main/java/ue_inforet_bool/ParseUtils.java:53-55 | The year is closed by the line's last `)` and opened by its last `(`, if there is one |
| `ParseUtils.GetYearNoOpenParen` | src/main/java/ue_inforet_bool/ParseUtils.java:53-55 | Neither the year nor the text after it holds a `(` |
| `ParseUtils.RemoveYear` | src/main/java/ue_inforet_bool/ParseUtils.java:57-59 | `removeYear` deletes every `(year)`; the result is never longer than the line |
| `ParseUtils.RemoveYearAbsent` | src/main/java/ue_inforet_bool/ParseUtils.java:57-59 | A line without the parenthesised year is left unchanged |
| `ParseUtils.RemoveYearLength` | src/main/java/ue_inforet_bool/ParseUtils.java:57-59 | Each deleted `(year)` costs its length, so a line that contains one gets strictly shorter |
| `ParseUtils.RemoveYearDeletes` | src/main/java/ue_inforet_bool/ParseUtils.java:57-59 | Text before the first `(` is kept, the `(year)` that follows it is deleted, and the rest of the line is treated the same way on its own |
| `ParseUtils.RemoveYearOnce` | src/main/java/ue_inforet_bool/ParseUtils.java:57-59 | A line holding `(year)` once, with no `(` before it, loses exactly that occurrence and keeps all other text in order |
| `ParseUtils.TypeMarker` | src/main/java/ue_inforet_bool/ParseUtils.java:34-51 | The markers are tried in order: television, then video, then videogame; none applies exactly when the line contains no marker |
| `ParseUtils.HandleTypeSubString` | src/main/java/ue_inforet_bool/ParseUtils.java:34-51 | Without a marker, the line and the document are untouched. Otherwise every occurrence of the first marker found is deleted and its type is recorded |
| `ParseUtils.TypeMarkerShortens` | src/main/java/ue_inforet_bool/ParseUtils.java:34-51 | Removing the marker found makes the line strictly shorter |
| `Utils.KeepDigitsAndDots` | src/main/java/Utils.java:10 | Cleaning never lengthens the text |
| `Utils.KeepMembers` | src/main/java/Utils.java:10 | What is left is exactly the text's digits and dots |
| `Utils.KeepAllKept` | src/main/java/Utils.java:10 | A text made only of digits and dots passes through unchanged |
| `Utils.KeepIdempotent` | src/main/java/Utils.java:10 | Cleaning twice is cleaning once |
| `Utils.KeepAppend` | src/main/java/Utils.java:10 | Cleaning works piece by piece over a concatenation |
| `Utils.ParseLong` | src/main/java/Utils.java:10 | `Long.valueOf` yields a value in the `long` range; it throws only NumberFormatException, and always on the empty text |
| `Utils.ParseNumber` | src/main/java/Utils.java:9-11 | `parseNumber` gives a value in the `long` range or throws NumberFormatException; `ParseNumberOutcome` says which |
| `Utils.ParseNumberOutcome` | src/main/java/Utils.java:9-11 | `parseNumber` succeeds exactly when something survives the cleaning, no dot survives and the value fits in a `long`. The value is then the digits' value and never negative |
| `Utils.ShortNumbersParse` | src/main/java/Utils.java:9-11 | Any text with between one and eighteen digits and no dot parses |
| `Utils.BudgetExample` | src/main/java/Utils.java:9-11 | A dollar budget with thousands separators reads as its number |
| `Utils.RejectedExamples` | src/main/java/Utils.java:9-11 | A decimal point, or text without any digit, throws NumberFormatException |
| `Documents.Document.constructor` | src/main/java/ue_inforet_bool/BooleanQuery.java:74 | A new document has no title, plot, episode title, year or type yet, and an empty id, which the header branch overwrites with the line right away |
| `Documents.Values` | src/main/java/ue_inforet_bool/BooleanQuery.java:160 | The values the listed document objects hold now, entry by entry |
| `Indexers.Count` | src/main/java/ue_inforet_bool/Indexer.java:77 | A token's count is positive exactly when it occurs, and never exceeds the list's length |
| `Indexers.Posted` | src/main/java/ue_inforet_bool/Indexer.java:76-87 | The map the loop of `processDocument` leaves: the id appended to each token's list once per occurrence; stated by `PostedKeys`, `PostedClosedForm` and `PostedUnchanged` |
| `Indexers.PostedKeys` | src/main/java/ue_inforet_bool/Indexer.java:76-87 | `processDocument` removes no key, and the only keys it adds are the tokens |
| `Indexers.PostedClosedForm` | src/main/java/ue_inforet_bool/Indexer.java:76-87 | Each token's list grows at its end by the id, once per occurrence of the token; every other list is unchanged |
| `Indexers.PostedContainsId` | src/main/java/ue_inforet_bool/Indexer.java:76-87 | After `processDocument`, every token is a key whose list holds the id |
| `Indexers.PostedUnchanged` | src/main/java/ue_inforet_bool/Indexer.java:76-87 | Lists of keys that are not among the tokens are untouched |
| `Indexers.ProcessDocument` | src/main/java/ue_inforet_bool/Indexer.java:76-87 | The in-place loop leaves exactly the map that the posting specification gives |
| `Indexers.IndexKeys` | src/main/java/ue_inforet_bool/Indexer.java:38-68 | The keys of an index are exactly the tokens of its entries |
| `Indexers.IndexMembership` | src/main/java/ue_inforet_bool/Indexer.java:38-68 | An id is listed under a token exactly when some entry with that id has the token |
| `Indexers.EntriesThrow` | src/main/java/ue_inforet_bool/Indexer.java:38-53 | A stream throws NullPointerException exactly when a selected document's token list is null |
| `Indexers.BuildIndex` | src/main/java/ue_inforet_bool/Indexer.java:38-68 | The map one stream builds, or its exception, which is always a NullPointerException; its contents are stated by `IndexInverted` |
| `Indexers.FilteredEntriesOk` | src/main/java/ue_inforet_bool/Indexer.java:49-66 | The episode and year streams filter out null fields first, so they never throw |
| `Indexers.EntriesMembership` | src/main/java/ue_inforet_bool/Indexer.java:38-68 | The entries fed to `processDocument` are exactly the selected documents with their tokens |
| `Indexers.IndexInverted` | src/main/java/ue_inforet_bool/Indexer.java:38-68 | An id is listed under a token exactly when a selected document with that id has the token in that field |
| `Indexers.TitleIndexOfDocument` | src/main/java/ue_inforet_bool/Indexer.java:39-42 | With distinct ids, a document is listed under a token exactly when its title has the token |
| `Indexers.PlotIndexOfDocument` | src/main/java/ue_inforet_bool/Indexer.java:44-47 | With distinct ids, a document is listed under a token exactly when its plot has the token |
| `Indexers.YearIndexOfDocument` | src/main/java/ue_inforet_bool/Indexer.java:55-66 | The year index never throws. It lists a document under its whole year exactly when the year is known and holds no `????` |
| `Indexers.EpisodeIndexOfDocument` | src/main/java/ue_inforet_bool/Indexer.java:49-53 | The episode index never throws; only documents with an episode title reach it |
| `Indexers.IndexField` | src/main/java/ue_inforet_bool/Indexer.java:38-68 | One stream, document by document through `processDocument`, gives the index its specification gives, or the exception |
| `Indexers.EntriesPrefixThrows` | src/main/java/ue_inforet_bool/Indexer.java:38-47 | Once a prefix of the documents throws, the whole stream throws |
| `Indexers.Indexer.constructor` | src/main/java/ue_inforet_bool/Indexer.java:14-20 | A new indexer has no maps yet; all four are null |
| `Indexers.Indexer.BuildIndexes` | src/main/java/ue_inforet_bool/Indexer.java:38-68 | `buildIndexes` throws NullPointerException when a title or plot is null. Otherwise every map holds its field's inverted index and `doneBuilding` holds |
| `Indexers.Indexer.GetTitleIndex` | src/main/java/ue_inforet_bool/Indexer.java:89-91 | Gives the title map when it exists, and throws NullPointerException when it is null |
| `Indexers.Indexer.GetEpisodeIndex` | src/main/java/ue_inforet_bool/Indexer.java:93-95 | Gives the episode map when it exists, and throws NullPointerException when it is null |
| `Indexers.Indexer.GetPlotIndex` | src/main/java/ue_inforet_bool/Indexer.java:97-99 | Gives the plot map when it exists, and throws NullPointerException when it is null |
| `Indexers.Indexer.GetYearIndex` | src/main/java/ue_inforet_bool/Indexer.java:101-103 | Gives the year map when it exists, and throws NullPointerException when it is null |
| `Indexers.Indexer.DoneBuilding` | src/main/java/ue_inforet_bool/Indexer.java:105-107 | `doneBuilding`: the title, plot and episode maps are set; the year map is not checked |
| `BooleanQueries.LineKindsExclusive` | src/main/java/ue_inforet_bool/BooleanQuery.java:71-150 | No line is both a header and a separator, a header and a plot line, or a separator and a plot line |
| `BooleanQueries.ParseHeader` | src/main/java/ue_inforet_bool/BooleanQuery.java:71-130 | A parsed header gives a document with these properties: its id is the raw line; its plot is null; its title and year are set; its year holds no `(`; it has an episode title exactly when its type is episode; no title token is empty |
| `BooleanQueries.ParseHeaderTitleShape` | src/main/java/ue_inforet_bool/BooleanQuery.java:84-129 | Quoted headers take their title from between the first and the last `"`; unquoted ones take the trimmed rest |
| `BooleanQueries.ReadHeader` | src/main/java/ue_inforet_bool/BooleanQuery.java:71-130 | The header branch, on a fresh document object, succeeds or throws exactly as the header parse does and leaves its values |
| `BooleanQueries.ReadQuoted` | src/main/java/ue_inforet_bool/BooleanQuery.java:84-114 | The quoted branch writes the document's fields as the quoted-header specification says, or throws its exception |
| `BooleanQueries.ReadQuotedTitle` | src/main/java/ue_inforet_bool/BooleanQuery.java:102-113 | The year and title part of the quoted branch agrees with its specification |
| `BooleanQueries.ReadPlain` | src/main/java/ue_inforet_bool/BooleanQuery.java:115-129 | The unquoted branch writes the document's fields as the plain-header specification says, or throws its exception |
| `BooleanQueries.Classify` | src/main/java/ue_inforet_bool/BooleanQuery.java:71-150 | A line is classed as a header, a separator or a plot line exactly when it starts with that kind's prefix |
| `BooleanQueries.Step` | src/main/java/ue_inforet_bool/BooleanQuery.java:69-151 | One loop iteration keeps the state well formed, and throws exactly on a header that does not parse |
| `BooleanQueries.Run` | src/main/java/ue_inforet_bool/BooleanQuery.java:69-151 | The loop keeps the state well formed |
| `BooleanQueries.Emitted` | src/main/java/ue_inforet_bool/BooleanQuery.java:140 | The corpus holds one entry per append: the final value of the object appended |
| `BooleanQueries.RunThrows` | src/main/java/ue_inforet_bool/BooleanQuery.java:69-151 | The loop throws exactly when some header does not parse, and it throws that header's exception |
| `BooleanQueries.SeparatorWithoutDocument` | src/main/java/ue_inforet_bool/BooleanQuery.java:131-143 | A separator while no document is open changes nothing |
| `BooleanQueries.NoSeparatorNoAppend` | src/main/java/ue_inforet_bool/BooleanQuery.java:131-143 | Without a separator nothing is appended, so a last entry without a closing separator is lost |
| `BooleanQueries.DoubleSeparatorAppendsTwice` | src/main/java/ue_inforet_bool/BooleanQuery.java:131-143 | Two separators in a row append the same document twice, and its plot becomes the tokens of the empty buffer |
| `BooleanQueries.PlotLinesCollect` | src/main/java/ue_inforet_bool/BooleanQuery.java:144-150 | Plot lines only extend the plot buffer, by their pieces in file order |
| `BooleanQueries.RunAppend` | src/main/java/ue_inforet_bool/BooleanQuery.java:69-151 | Running two stretches of lines is running the first, then the second from where it stopped |
| `BooleanQueries.EntryAppendsDocument` | src/main/java/ue_inforet_bool/BooleanQuery.java:69-151 | A header, its plot lines and a separator append one new document. Its plot is the tokens of everything the buffer held |
| `BooleanQueries.OpenThenCollect` | src/main/java/ue_inforet_bool/BooleanQuery.java:71-150 | A header followed by plot lines opens the new document and extends the buffer |
| `BooleanQueries.CloseOnce` | src/main/java/ue_inforet_bool/BooleanQuery.java:131-143 | A separator with a document open sets its plot, empties the buffer and appends it |
| `BooleanQueries.RunKeepsTitles` | src/main/java/ue_inforet_bool/BooleanQuery.java:69-151 | Every document object the loop creates has a title |
| `BooleanQueries.EmittedIndexable` | src/main/java/ue_inforet_bool/BooleanQuery.java:160 | Every appended document has a title and a plot, so the title and plot streams of the indexer never throw |
| `BooleanQueries.CorpusIndexable` | src/main/java/ue_inforet_bool/BooleanQuery.java:160 | So the exit branch after indexing is never taken for a corpus that parses |
| `BooleanQueries.Corpus` | src/main/java/ue_inforet_bool/BooleanQuery.java:64-151 | The documents the parse loop hands to the indexer, or the exception that ends it; stated by `RunThrows`, `EntryAppendsDocument` and `CorpusIndexable` |
| `BooleanQueries.TermOf` | src/main/java/ue_inforet_bool/BooleanQuery.java:218 | The term is the text after the first `:`, or the whole part when there is none |
| `BooleanQueries.Scan` | src/main/java/ue_inforet_bool/BooleanQuery.java:316-319 | The inner loop of `searchPhrase`: a thrown exception is always an index error; its outcomes are stated by `ScanMeaning` |
| `BooleanQueries.ScanMeaning` | src/main/java/ue_inforet_bool/BooleanQuery.java:316-319 | The phrase scan succeeds exactly when the rest of the phrase equals the words at the same positions. It throws exactly when the words run out while they still agree |
| `BooleanQueries.PhraseHit` | src/main/java/ue_inforet_bool/BooleanQuery.java:312-321 | Whether `searchPhrase` keeps one candidate: an empty phrase or a scan past the words throws an index error |
| `BooleanQueries.PhraseAll` | src/main/java/ue_inforet_bool/BooleanQuery.java:308-323 | `searchPhrase` over all candidates: the shared set only grows, and a thrown exception is an index error; stated fully by `PhraseAllMembership` and `PhraseAllThrows` |
| `BooleanQueries.PhraseAllMembership` | src/main/java/ue_inforet_bool/BooleanQuery.java:308-323 | `searchPhrase` keeps exactly the candidates whose scan succeeds, plus what the set held |
| `BooleanQueries.PhraseAllThrows` | src/main/java/ue_inforet_bool/BooleanQuery.java:308-323 | `searchPhrase` throws exactly when the scan of some candidate throws |
| `BooleanQueries.ContainsPhrase` | src/main/java/ue_inforet_bool/BooleanQuery.java:312-321 | The loop for one candidate gives the verdict of the phrase-scan specification |
| `BooleanQueries.SearchPhrase` | src/main/java/ue_inforet_bool/BooleanQuery.java:308-323 | The pass over the candidates gives the result set the specification gives, or its exception |
| `BooleanQueries.BareClause` | src/main/java/ue_inforet_bool/BooleanQuery.java:220-264 | A part on the bare-term path adds its term's posting list to the set |
| `BooleanQueries.UnionPostingsMembership` | src/main/java/ue_inforet_bool/BooleanQuery.java:215-303 | An id is in the union exactly when some part's posting list holds it |
| `BooleanQueries.LookUp` | src/main/java/ue_inforet_bool/BooleanQuery.java:224-232 | What a recognised clause does with its index: the shared set only grows; the paths are stated by `BareClause` and `SpacedTermAddsNothing` |
| `BooleanQueries.Clause` | src/main/java/ue_inforet_bool/BooleanQuery.java:217-298 | One part of the query: only the `title:`, `plot:` and `type:` prefixes act, and the shared set only grows |
| `BooleanQueries.QueryResult` | src/main/java/ue_inforet_bool/BooleanQuery.java:209-306 | `booleanQuery` split at the literal `AND`, each part added into one set; its meaning is stated by `EvaluateIsUnion` |
| `BooleanQueries.EvaluateIsUnion` | src/main/java/ue_inforet_bool/BooleanQuery.java:209-306 | The parts are combined by union, not intersection |
| `BooleanQueries.SpacedTermAddsNothing` | src/main/java/ue_inforet_bool/BooleanQuery.java:220-264 | A term with a blank is never a key of a blank-free index, so its part adds nothing |
| `BooleanQueries.IndexKeysHaveNoSpace` | src/main/java/ue_inforet_bool/Indexer.java:38-47 | The keys of the title and plot indices are tokens, and hold no blank |
| `BooleanQueries.LoweredIsLowerCase` | src/main/java/ue_inforet_bool/BooleanQuery.java:217 | A lower-cased, trimmed part holds no upper-case letter |
| `BooleanQueries.EpisodeTitleBranchDead` | src/main/java/ue_inforet_bool/BooleanQuery.java:265-281 | The `episodeTitle:` branch is never taken, since the part it tests is lower-cased |
| `BooleanQueries.TitleQueryBeforeBuild` | src/main/java/ue_inforet_bool/BooleanQuery.java:220-222 | Before the indices are built, a title part throws NullPointerException |
| `BooleanQueries.LowerCaseAndDoesNotSplit` | src/main/java/ue_inforet_bool/BooleanQuery.java:212 | The split is case-sensitive: a query without a capital `AND` is a single part |
| `BooleanQueries.OpenDocument` | src/main/java/ue_inforet_bool/BooleanQuery.java:71-130 | A header line creates a fresh document object, now the open one, as the `Opened` step says; or it throws the parse's exception |
| `BooleanQueries.CloseDocument` | src/main/java/ue_inforet_bool/BooleanQuery.java:131-143 | A separator with a document open performs the `Closed` step on the objects themselves |
| `BooleanQueries.ParseLine` | src/main/java/ue_inforet_bool/BooleanQuery.java:69-151 | One iteration on the parser's variables performs the value-level `Step`, or throws its exception |
| `BooleanQueries.ParseCorpus` | src/main/java/ue_inforet_bool/BooleanQuery.java:64-151 | The parsing loop appends fresh document objects whose values are the corpus, or throws the first header exception |
| `BooleanQueries.BooleanQuery.constructor` | src/main/java/ue_inforet_bool/BooleanQuery.java:19-24 | A new engine holds a fresh indexer without maps |
| `BooleanQueries.BooleanQuery.BuildIndices` | src/main/java/ue_inforet_bool/BooleanQuery.java:38-166 | `buildIndices` throws exactly when parsing does. Otherwise the indexer holds the indices of the parsed corpus and is done building |
| `BooleanQueries.BooleanQuery.Query` | src/main/java/ue_inforet_bool/BooleanQuery.java:209-306 | `booleanQuery` gives the result set of the query specification, or its exception, and changes nothing |
| `BooleanQueries.BooleanQuery.QueryPart` | src/main/java/ue_inforet_bool/BooleanQuery.java:217-298 | One part is handled as the clause specification says |
| `BooleanQueries.LookUpTerm` | src/main/java/ue_inforet_bool/BooleanQuery.java:224-232 | A term handled through one index does nothing when the term is not a key. An empty term throws, a quoted term goes to the phrase search, and any other adds its posting list |
| `QueryExtenders.Split1` | src/main/java/ue_inforet_bool_wordnet_study/QueryExtender.java:25-26 | The part splits into key and term exactly when it holds a `:`, and then `key:term` gives the part back; otherwise it throws an index error |
| `QueryExtenders.Clean` | src/main/java/ue_inforet_bool_wordnet_study/QueryExtender.java:24 | A part trimmed and stripped of every `(` and `)`, as the loop does before reading key and term |
| `QueryExtenders.IndexOfItem` | src/main/java/ue_inforet_bool_wordnet_study/QueryExtender.java:38 | `indexOf` gives -1 exactly when the item is absent; otherwise the first position holding it |
| `QueryExtenders.IndexOfDistinct` | src/main/java/ue_inforet_bool_wordnet_study/QueryExtender.java:38 | In a list without repetitions `indexOf` finds each element at its own position |
| `QueryExtenders.Alternatives` | src/main/java/ue_inforet_bool_wordnet_study/QueryExtender.java:33-47 | The string builder's contents for one term; stated by `AlternativesDistinct` and `RepeatedLastSynonymLeavesOpen` |
| `QueryExtenders.SynonymsTextDistinct` | src/main/java/ue_inforet_bool_wordnet_study/QueryExtender.java:36-47 | For distinct synonyms the loop writes them qualified, joined by ` OR `, closed by `)` |
| `QueryExtenders.AlternativesDistinct` | src/main/java/ue_inforet_bool_wordnet_study/QueryExtender.java:33-47 | For distinct synonyms the replacement is the term and its synonyms, each qualified by the key, joined by ` OR ` in parentheses |
| `QueryExtenders.RepeatedLastSynonymLeavesOpen` | src/main/java/ue_inforet_bool_wordnet_study/QueryExtender.java:36-47 | When the last synonym also occurs earlier, the text ends in ` OR ` and is never closed |
| `QueryExtenders.BuildAlternatives` | src/main/java/ue_inforet_bool_wordnet_study/QueryExtender.java:33-47 | The string-builder loop writes exactly the specified replacement text |
| `QueryExtenders.RewriteParts` | src/main/java/ue_inforet_bool_wordnet_study/QueryExtender.java:22-56 | The loop over the parts from one part on, with the substituted `key:term` set and the query so far; stated by `RewritePartsThrows`, `RewritePartsUnchanged` and `RepeatedPartSkipped` |
| `QueryExtenders.Rewrite` | src/main/java/ue_inforet_bool_wordnet_study/QueryExtender.java:15-58 | What `modifiyQuery` returns or throws; stated by `RewriteOutcome` and `RepeatedPartSkippedInQuery` |
| `QueryExtenders.ModifyQuery` | src/main/java/ue_inforet_bool_wordnet_study/QueryExtender.java:15-58 | The loop over the parts returns or throws what the rewrite specification does |
| `QueryExtenders.RewritePartsThrows` | src/main/java/ue_inforet_bool_wordnet_study/QueryExtender.java:22-56 | The rewrite throws exactly when some part has no `:`, and then with an index error |
| `QueryExtenders.RewritePartsUnchanged` | src/main/java/ue_inforet_bool_wordnet_study/QueryExtender.java:28-31 | Parts whose terms have no synonyms leave the query as it is |
| `QueryExtenders.RewriteOutcome` | src/main/java/ue_inforet_bool_wordnet_study/QueryExtender.java:15-58 | `modifiyQuery` throws exactly when some part lacks a `:`. When every part has one and no term has synonyms, it returns the query unchanged |
| `QueryExtenders.RepeatedPartSkipped` | src/main/java/ue_inforet_bool_wordnet_study/QueryExtender.java:49-53 | A `key:term` is substituted at most once: a later part, however far on, that cleans to the same `key:term` as an earlier one changes nothing, whatever the raw text around it |
| `QueryExtenders.SpentPartSkipped` | src/main/java/ue_inforet_bool_wordnet_study/QueryExtender.java:49-53 | A part whose `key:term` was already substituted, or whose term has no synonyms, changes nothing wherever it stands among the later parts |
| `QueryExtenders.RepeatedPartSkippedInQuery` | src/main/java/ue_inforet_bool_wordnet_study/QueryExtender.java:15-58 | `modifiyQuery` gives the same result as if a part that cleans to the same `key:term` as an earlier part were left out |
| `Wordnet.Initial` | src/main/java/ue_inforet_bool_wordnet_study/BooleanQueryWordnet.java:128-138 | The tables start empty and well formed |
| `Wordnet.AddAbsent` | src/main/java/ue_inforet_bool_wordnet_study/BooleanQueryWordnet.java:180-182 | The merge appends, in order, exactly the words the list lacks. The old list is a prefix, and a list without duplicates stays so |
| `Wordnet.AddAbsentPresent` | src/main/java/ue_inforet_bool_wordnet_study/BooleanQueryWordnet.java:180-182 | Merging words the list already holds changes nothing |
| `Wordnet.AddAbsentIdempotent` | src/main/java/ue_inforet_bool_wordnet_study/BooleanQueryWordnet.java:180-182 | Merging the same words twice is merging them once |
| `Wordnet.AddAbsentAppendsNew` | src/main/java/ue_inforet_bool_wordnet_study/BooleanQueryWordnet.java:180-182 | Each word the merge appends differs from every word before it |
| `Wordnet.StripMarker` | src/main/java/ue_inforet_bool_wordnet_study/BooleanQueryWordnet.java:169-170 | `(p)` and `(a)` are cut off first and `(ip)` only otherwise; any other word is kept; the result is a prefix of the word |
| `Wordnet.StripMarkerAppended` | src/main/java/ue_inforet_bool_wordnet_study/BooleanQueryWordnet.java:169-170 | Cutting a marker off a word that carries one gives the word back |
| `Wordnet.KeptWords` | src/main/java/ue_inforet_bool_wordnet_study/BooleanQueryWordnet.java:242-248 | The kept words are exactly the tokens that are not collocations, with their markers cut off |
| `Wordnet.ParseHexInt` | src/main/java/ue_inforet_bool_wordnet_study/BooleanQueryWordnet.java:157 | `parseInt(s, 16)` gives an `int`, throws NumberFormatException otherwise, and always throws on the empty text |
| `Wordnet.ParseTwoHexDigits` | src/main/java/ue_inforet_bool_wordnet_study/BooleanQueryWordnet.java:157 | A two-digit word count reads as its hexadecimal value |
| `Wordnet.VisitsWordCount` | src/main/java/ue_inforet_bool_wordnet_study/BooleanQueryWordnet.java:166 | For a word count n between 1 and 2^30, the loop visits n - 1 words |
| `Wordnet.OtherWordFields` | src/main/java/ue_inforet_bool_wordnet_study/BooleanQueryWordnet.java:166-167 | The loop reads fields 6, 8, 10, ... and throws exactly when it runs past the end of the line |
| `Wordnet.ParseDataLine` | src/main/java/ue_inforet_bool_wordnet_study/BooleanQueryWordnet.java:152-172 | A data line's outcome: field 4 is the headword, an unparsable count exits, a collocation headword is skipped, and a missing field throws |
| `Wordnet.DataLineLayout` | src/main/java/ue_inforet_bool_wordnet_study/BooleanQueryWordnet.java:152-172 | With all fields present, the synonyms are the kept words of fields 6, 8, ..., 2(n-1)+4 |
| `Wordnet.Merge` | src/main/java/ue_inforet_bool_wordnet_study/BooleanQueryWordnet.java:180-182 | Merging into a shared list keeps the tables well formed |
| `Wordnet.MergeGrows` | src/main/java/ue_inforet_bool_wordnet_study/BooleanQueryWordnet.java:180-189 | Merging only grows the tables |
| `Wordnet.GrowsKeeps` | src/main/java/ue_inforet_bool_wordnet_study/BooleanQueryWordnet.java:174-210 | What a table holds stays in it as the tables grow |
| `Wordnet.AddHeadword` | src/main/java/ue_inforet_bool_wordnet_study/BooleanQueryWordnet.java:174-194 | After the headword step the tables have grown, and the headword's entry holds every synonym |
| `Wordnet.AllBut` | src/main/java/ue_inforet_bool_wordnet_study/BooleanQueryWordnet.java:200-202 | The other synonyms: one fewer, every other position included, nothing else |
| `Wordnet.LinkOne` | src/main/java/ue_inforet_bool_wordnet_study/BooleanQueryWordnet.java:196-210 | A synonym's entry gains the headword and every other synonym, and the tables only grow |
| `Wordnet.LinkFrom` | src/main/java/ue_inforet_bool_wordnet_study/BooleanQueryWordnet.java:196-210 | The linking loop keeps the tables well formed and only grows them |
| `Wordnet.LinkFromLinks` | src/main/java/ue_inforet_bool_wordnet_study/BooleanQueryWordnet.java:196-210 | Every synonym's entry holds the headword and the other synonyms |
| `Wordnet.DataLineLinks` | src/main/java/ue_inforet_bool_wordnet_study/BooleanQueryWordnet.java:152-210 | After a data line, the headword's entry holds every kept synonym and each synonym's entry holds the headword and the others |
| `Wordnet.LinkKeepsOwnList` | src/main/java/ue_inforet_bool_wordnet_study/BooleanQueryWordnet.java:192-210 | The shared synonym list the linking loop walks does not change under it |
| `Wordnet.DataLineOwnList` | src/main/java/ue_inforet_bool_wordnet_study/BooleanQueryWordnet.java:191-194 | A new headword's entry is the synonym list itself, and no other key points at it |
| `Wordnet.DataLine` | src/main/java/ue_inforet_bool_wordnet_study/BooleanQueryWordnet.java:151-211 | A data line that does not throw only grows the tables |
| `Wordnet.DataFileSkipsHeader` | src/main/java/ue_inforet_bool_wordnet_study/BooleanQueryWordnet.java:149 | Exactly the first 29 lines of a data file are skipped, whatever they hold |
| `Wordnet.DataFile` | src/main/java/ue_inforet_bool_wordnet_study/BooleanQueryWordnet.java:147-215 | One `data.*` file: an unreadable file ends the program, the header lines are skipped, and the tables stay well formed |
| `Wordnet.CollectFrom` | src/main/java/ue_inforet_bool_wordnet_study/BooleanQueryWordnet.java:252-260 | The collected list is the exceptions followed by exactly the new synonyms, which the part-of-speech table lists for any token of the line |
| `Wordnet.CollectAppendsNew` | src/main/java/ue_inforet_bool_wordnet_study/BooleanQueryWordnet.java:252-260 | Every word collected differs from every word before it |
| `Wordnet.ExcLine` | src/main/java/ue_inforet_bool_wordnet_study/BooleanQueryWordnet.java:236-269 | One line of an `*.exc` file keeps the tables well formed; its entry is stated by `ExcLineEntry` |
| `Wordnet.ExcLineEntry` | src/main/java/ue_inforet_bool_wordnet_study/BooleanQueryWordnet.java:237-269 | After an exception line, the inflected form's entry holds its kept base forms and all their synonyms |
| `Wordnet.ExceptionsOverride` | src/main/java/ue_inforet_bool_wordnet_study/BooleanQueryWordnet.java:291-300 | `putAll` lets an exception entry replace the synset entry with the same key, and the part-of-speech tables are emptied |
| `Wordnet.Finish` | src/main/java/ue_inforet_bool_wordnet_study/BooleanQueryWordnet.java:291-300 | The exception entries put over the combined table, the part-of-speech tables cleared and the exception table dropped keep the store well formed; the contents are stated by `ExceptionsOverride` |
| `Wordnet.Build` | src/main/java/ue_inforet_bool_wordnet_study/BooleanQueryWordnet.java:123-303 | A build that completes leaves well-formed tables |
| `Wordnet.AppendAbsent` | src/main/java/ue_inforet_bool_wordnet_study/BooleanQueryWordnet.java:180-182 | The merge loop computes the merge specification |
| `Wordnet.EntryFor` | src/main/java/ue_inforet_bool_wordnet_study/BooleanQueryWordnet.java:197-202 | The entry built for synonym j is the headword followed by every other synonym, in order |
| `Wordnet.ReadSynonyms` | src/main/java/ue_inforet_bool_wordnet_study/BooleanQueryWordnet.java:166-172 | The synonym loop gives the kept words of fields 6, 8, ..., or throws when a field is missing |
| `Wordnet.ReadExceptions` | src/main/java/ue_inforet_bool_wordnet_study/BooleanQueryWordnet.java:242-248 | The exception loop gives the kept base forms, tokens 1 onwards |
| `Wordnet.BooleanQueryWordnet.constructor` | src/main/java/ue_inforet_bool_wordnet_study/BooleanQueryWordnet.java:78 | A new object's tables are those `buildSynsets` starts from |
| `Wordnet.BooleanQueryWordnet.MergeInto` | src/main/java/ue_inforet_bool_wordnet_study/BooleanQueryWordnet.java:180-189 | A merge through one table is seen by every key sharing the list |
| `Wordnet.BooleanQueryWordnet.ReadDataLine` | src/main/java/ue_inforet_bool_wordnet_study/BooleanQueryWordnet.java:151-211 | The object's tables after one data line are those of the data-line specification, or it ends with that failure |
| `Wordnet.BooleanQueryWordnet.PutHeadword` | src/main/java/ue_inforet_bool_wordnet_study/BooleanQueryWordnet.java:174-194 | The headword step on the object is the `AddHeadword` step |
| `Wordnet.BooleanQueryWordnet.LinkSynonyms` | src/main/java/ue_inforet_bool_wordnet_study/BooleanQueryWordnet.java:196-210 | The linking loop on the object is the `LinkFrom` step |
| `Wordnet.BooleanQueryWordnet.LinkSynonym` | src/main/java/ue_inforet_bool_wordnet_study/BooleanQueryWordnet.java:197-209 | One turn of the linking loop on the object is the `LinkOne` step |
| `Wordnet.BooleanQueryWordnet.ReadDataFile` | src/main/java/ue_inforet_bool_wordnet_study/BooleanQueryWordnet.java:147-215 | One data file on the object ends as the data-file specification says |
| `Wordnet.BooleanQueryWordnet.ReadExcLine` | src/main/java/ue_inforet_bool_wordnet_study/BooleanQueryWordnet.java:236-269 | One exception line on the object ends as the exception-line specification says |
| `Wordnet.BooleanQueryWordnet.CollectSynonyms` | src/main/java/ue_inforet_bool_wordnet_study/BooleanQueryWordnet.java:252-260 | The collecting loop computes the collect specification |
| `Wordnet.BooleanQueryWordnet.ReadExcFile` | src/main/java/ue_inforet_bool_wordnet_study/BooleanQueryWordnet.java:233-288 | One exception file on the object ends as the exception-file specification says |
| `Wordnet.BooleanQueryWordnet.ReadDataFiles` | src/main/java/ue_inforet_bool_wordnet_study/BooleanQueryWordnet.java:146-216 | The four data files on the object end as their specification says |
| `Wordnet.BooleanQueryWordnet.ReadExcFiles` | src/main/java/ue_inforet_bool_wordnet_study/BooleanQueryWordnet.java:232-289 | The four exception files on the object end as their specification says |
| `Wordnet.BooleanQueryWordnet.BuildSynsets` | src/main/java/ue_inforet_bool_wordnet_study/BooleanQueryWordnet.java:123-303 | `buildSynsets` over the eight files ends as the `Build` specification says: with its tables, or with its failure |
| `Wordnet.BooleanQueryWordnet.PrintSynsetStats` | src/main/java/ue_inforet_bool_wordnet_study/BooleanQueryWordnet.java:84-96 | Reports the number of keys of the combined table and the total size of their lists |
| `TokenPairs.New` | src/main/java/CoOccurrence.java:12-15 | A new pair has the score at its default of zero |
| `TokenPairs.GettersReturnArguments` | src/main/java/CoOccurrence.java:31-37 | The getters hand back exactly the constructor's tokens |
| `TokenPairs.Equals` | src/main/java/CoOccurrence.java:18-29 | `equals` is false for null and for any other class |
| `TokenPairs.EqualsTokenwise` | src/main/java/CoOccurrence.java:18-29 | Two pairs are equal exactly when they agree token by token, whatever their scores |
| `TokenPairs.EqualsOrdered` | src/main/java/CoOccurrence.java:28 | The pair is ordered: swapping two different tokens gives an unequal pair |
| `TokenPairs.EqualsEquivalence` | src/main/java/CoOccurrence.java:18-29 | `equals` on pairs is reflexive, symmetric and transitive |
| `TokenPairs.HashCode` | src/main/java/CoOccurrence.java:39-42 | The hash is the tokens' hashes added in wrapping 32-bit arithmetic |
| `TokenPairs.EqualPairsHashAlike` | src/main/java/CoOccurrence.java:18-42 | Equal pairs hash alike, so a pair is a sound hash-map key |
| `TokenPairs.SwappedPairsHashAlike` | src/main/java/CoOccurrence.java:41 | A pair and its swap collide |
| `TokenPairs.ScoreIgnored` | src/main/java/CoOccurrence.java:10-42 | The score takes no part in `equals` or `hashCode` |
| `Counting.Inc` | src/main/java/CoOccurrences.java:153-157 | One count step adds the key if it is new, raises its count by one and leaves every other count alone |
| `Counting.TallyCount` | src/main/java/CoOccurrences.java:152-169 | Each key's count rises by its number of occurrences, and nothing else changes |
| `Counting.TallyKeys` | src/main/java/CoOccurrences.java:152-169 | Keys are only ever added: the old ones and the elements counted |
| `Counting.TallyAppend` | src/main/java/CoOccurrences.java:152-169 | Counting two lists in turn is counting their concatenation |
| `Counting.TallyTotal` | src/main/java/CoOccurrences.java:152-169 | Counting a list raises the total count by its length |
| `Bigrams.Pairs` | src/main/java/CoOccurrences.java:159-168 | A token list has one adjacent pair per position but the last |
| `Bigrams.PairsAt` | src/main/java/CoOccurrences.java:159-168 | The i-th pair is the i-th token followed by the next |
| `Bigrams.PairsSnoc` | src/main/java/CoOccurrences.java:159-168 | One more token adds one pair, with the previous token on the left |
| `Bigrams.PairCountIsAdjacencies` | src/main/java/CoOccurrences.java:159-168 | A pair is counted once per position where its left token is directly followed by its right |
| `Bigrams.PairsBounded` | src/main/java/CoOccurrences.java:150-170 | A pair is counted no more often than either of its tokens |
| `Bigrams.PairsAppend` | src/main/java/CoOccurrences.java:150-170 | The pairs of a concatenation are those of each half plus the one across the seam |
| `Bigrams.CountTotals` | src/main/java/CoOccurrences.java:150-170 | One call adds the number of tokens to the token total, and the number of adjacent positions to the pair total |
| `Bigrams.CountsLookups` | src/main/java/CoOccurrences.java:126-127 | For a counted pair, both token lookups of the filter find a value |
| `Bigrams.CountsPreserved` | src/main/java/CoOccurrences.java:150-170 | Counting keeps the invariant: counts are positive, and each pair is counted no more often than either token |
| `Bigrams.NoPairAcrossCalls` | src/main/java/CoOccurrences.java:151 | Two calls miss exactly the pair across the seam, which is counted once less than in one call |
| `Bigrams.Limit` | src/main/java/CoOccurrences.java:136 | At most a thousand results are printed |
| `Bigrams.LimitKeepsCandidates` | src/main/java/CoOccurrences.java:122-138 | Whatever the ranking, at most a thousand distinct candidates are printed, and all of them when there are no more |
| `Bigrams.CoOccurrences.constructor` | src/main/java/CoOccurrences.java:37-41 | Both counters start empty |
| `Bigrams.CoOccurrences.AddTokens` | src/main/java/CoOccurrences.java:150-170 | The token and pair counters become those of the token list and of its adjacent pairs, and the invariant is kept |
| `Bigrams.CoOccurrences.Candidates` | src/main/java/CoOccurrences.java:124-132 | The results are exactly the counted pairs with both tokens above 1000 and neither a stop word, each once |
| `StopWords.WordsArePlain` | src/main/java/StopWordHelper.java:10-184 | The list holds 174 words, all lower-case letters and apostrophes |
| `StopWords.SplitStopWords` | src/main/java/StopWordHelper.java:189 | Splitting the literal at line breaks gives the words, preceded by one empty word |
| `StopWords.AddAll` | src/main/java/StopWordHelper.java:190 | `addAll` puts exactly the given words in the set |
| `StopWords.StopWordHelper.constructor` | src/main/java/StopWordHelper.java:186-191 | The set holds exactly the pieces of the literal, the empty word included |
| `StopWords.StopWordHelper.IsStopWord` | src/main/java/StopWordHelper.java:193-200 | True exactly when some argument is in the set; false with no arguments |
| `StopWords.StopWordExamples` | src/main/java/StopWordHelper.java:186-200 | Membership is exact: `the` and the empty word are stop words, `The` is not |
| `ImdbQueries.TupleEquals` | src/main/java/IMDBQueries.java:38-42 | `Tuple.equals` throws NullPointerException on null and ClassCastException on another class. It compares tuples component by component |
| `ImdbQueries.TupleEqualsSymmetric` | src/main/java/IMDBQueries.java:38-42 | On tuples, `equals` never throws and is symmetric |
| `ImdbQueries.FilterCount` | src/main/java/IMDBQueries.java:223-226 | A kept name keeps all its occurrences, and a rejected one keeps none |
| `ImdbQueries.CountsOfKept` | src/main/java/IMDBQueries.java:218-234 | A name is counted exactly when it is kept and occurs, and its count is its number of occurrences |
| `ImdbQueries.CharacterCounts` | src/main/java/IMDBQueries.java:218-234 | The counts of every counted character name; stated by `CountsOfKept` and `UncreativeWritersNames` |
| `ImdbQueries.ActorCounts` | src/main/java/IMDBQueries.java:262-273 | The counts of every non-empty actor name; stated by `CountsOfKept` and `WorkHorseNames` |
| `ImdbQueries.CountNames` | src/main/java/IMDBQueries.java:222-233 | The inner counting loop counts exactly the kept names of one list |
| `ImdbQueries.CountCharacters` | src/main/java/IMDBQueries.java:218-234 | The loop over the movies leaves the counts of every counted character name |
| `ImdbQueries.CountActors` | src/main/java/IMDBQueries.java:262-273 | The loop over the movies leaves the counts of every non-empty actor name |
| `ImdbQueries.BeforeAsymmetric` | src/main/java/IMDBQueries.java:238-246 | The two comparators are strict: no entry sorts before one that sorts before it |
| `ImdbQueries.Insert` | src/main/java/IMDBQueries.java:238-246 | Inserting adds exactly the new entry |
| `ImdbQueries.Sort` | src/main/java/IMDBQueries.java:238-246 | Sorting is a permutation |
| `ImdbQueries.SortOrdered` | src/main/java/IMDBQueries.java:238-246 | Sorting leaves the entries in comparator order |
| `ImdbQueries.OrderedDescending` | src/main/java/IMDBQueries.java:238-246 | Sorted by count means the counts never increase along the list |
| `ImdbQueries.PermutationKeepsNames` | src/main/java/IMDBQueries.java:287 | Rearranging the entries keeps them consistent, distinct and naming the same names |
| `ImdbQueries.PrefixIsTopTen` | src/main/java/IMDBQueries.java:247 | The first ten of a complete list sorted by non-increasing count are a top ten |
| `ImdbQueries.TopTen` | src/main/java/IMDBQueries.java:236-249 | Sort by count, then `limit(10)`; stated by `TopTenSelects` |
| `ImdbQueries.TopTenSelects` | src/main/java/IMDBQueries.java:236-249 | Sorting an entry set by count and keeping ten gives a top ten, in non-increasing order |
| `ImdbQueries.TopTenRearranged` | src/main/java/IMDBQueries.java:286-287 | A top ten stays a top ten however it is rearranged |
| `ImdbQueries.EntrySet` | src/main/java/IMDBQueries.java:236 | The entry set lists each key of the map once, with its count |
| `ImdbQueries.QueryUncreativeWriters` | src/main/java/IMDBQueries.java:216-250 | At most ten distinct counted names, each with its count, by non-increasing count. No name left out counts more than a listed one |
| `ImdbQueries.UncreativeWritersNames` | src/main/java/IMDBQueries.java:223-232 | A returned name passes the filter, and its count is all its occurrences |
| `ImdbQueries.QueryWorkHorse` | src/main/java/IMDBQueries.java:261-290 | A top ten of non-empty actor names by count, then ordered by name ignoring case |
| `ImdbQueries.WorkHorseNames` | src/main/java/IMDBQueries.java:265-272 | A returned name is a non-empty cast entry, and its count is all its occurrences |
| `ImdbQueries.CountByDeletion` | src/main/java/IMDBQueries.java:144-145 | The length lost by deleting a word is its length times its number of occurrences |
| `ImdbQueries.StoryScore` | src/main/java/IMDBQueries.java:140-146 | The number reported is four times the occurrences of `kill` plus four times those of `love` |
| `ImdbQueries.StoryMatches` | src/main/java/IMDBQueries.java:135-147 | Every match is an input movie whose lower-cased description mentions both words, paired with its score |
| `ImdbQueries.StoryMatchesAppend` | src/main/java/IMDBQueries.java:135-147 | The filter keeps input order |
| `ImdbQueries.QueryPillarsOfStorytelling` | src/main/java/IMDBQueries.java:134-150 | The first ten matches in input order, or all of them when there are fewer; no sort |
| `ImdbQueries.PillarsScores` | src/main/java/IMDBQueries.java:134-150 | Every returned movie is an input movie that mentions both words, paired with its score, which is a multiple of four and at least eight |
| `ImdbQueries.RedPlanetFilter` | src/main/java/IMDBQueries.java:163-165 | A movie is kept exactly when it is an input movie of genre Sci-Fi whose description mentions `Mars`, case included |
| `ImdbQueries.QueryMagicCouple` | src/main/java/IMDBQueries.java:353-357 | The query is not implemented and always returns the empty list |

## Left out

- Reading files, `System.out`/`System.err` output and timing are not modelled. The plot list, the WordNet files and the movie list are given as sequences of lines or records. A file that cannot be read is `None`, and `System.exit` is a failure kind.
- The Lucene side of `BooleanQueryWordnet` is not modelled: its index building, its query parser and its search. Only `buildSynsets` and `printSynsetStats` are.
- `CoOccurrences.buildIndices` is not modelled: its file loop, which reuses the header code. Its filter and its limit are (`Candidates`, `Limit`).
- `computeScore` and the sort by float score are not modelled: Dafny has no IEEE floats, so the score is a `real` that nothing computes. `LimitKeepsCandidates` holds for any ranking of the candidates.
- The red-planet sort is not modelled, because its comparator is not a valid ordering (it never answers "less"); only its two filters are.
- The iteration order of Java hash maps and sets is not modelled. `EntrySet` and `Candidates` promise only what holds for every order.
- Indexer.buildIndexes: parallel streams and `ConcurrentHashMap` are modelled as sequential loops in list order. With parallel streams, the order of ids within a posting list is not fixed.
- Integer overflow is not modelled for the token, pair and name counts (Java `Integer`) or for `synSum`. They are unbounded `nat`s, which agree with Java below 2^31.
- The tokens' own `hashCode` (`String.hashCode`) is not modelled; `HashCode` takes it as a parameter.
- `String.toLowerCase` is modelled for ASCII only, so other letters keep their case. `\d` is ASCII digits, as java.util.regex has it without the Unicode flag.
- Null tokens, and the ClassCastException a map value that is not a list would cause, cannot happen in the model: tokens are strings and map values are sequences.
- The state of the objects after an exception is not described; the methods report the exception and promise nothing more.
- `Tuple.hashCode` is not modelled; only `Tuple.equals` is.
- The `score` assignment in the filter of `CoOccurrences` is not modelled.
- The source calls `indexer.buildIndices`, which `Indexer` does not declare; it is modelled as `buildIndexes` followed by the `doneBuilding` check. `getTypeIndex` does not exist either, so the type index is a parameter of the query.
- The queries of `IMDBQueries` outside uncreative writers, workhorse, pillars of storytelling, red planet and magic couples are not modelled. The movie crawlers, readers and writers are not either.
- Bigrams.CoOccurrences.AddTokens: the tokens are a sequence rather than any `Iterable`.
- The literal query of `BooleanQueryTest.parseQuery1` is not stated as a lemma. `AlternativesDistinct` and `RewritePartsUnchanged` cover its shape for any distinct synonyms.
- Wordnet.Build: the function's own ensures promises only well-formed tables; what the tables hold is stated by `DataLineLinks`, `ExcLineEntry` and `ExceptionsOverride`.
