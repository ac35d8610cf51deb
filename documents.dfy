/**
 * The corpus entry built by the parser. The source mutates one `Document`
 * object field by field while it reads a header, and writes its plot again
 * each time a separator line closes it, so the entity is a class here.
 */
module Documents {
  import opened JavaLang

  /** The header markers of the three unquoted document types. */
  const Television := "(TV)"
  const Video := "(V)"
  const VideoGame := "(VG)"

  /** The values of a document's fields at one moment; `None` is Java's null. */
  datatype DocumentValue = DocumentValue(
    titleId: string,
    title: Option<seq<string>>,
    plot: Option<seq<string>>,
    episodeTitle: Option<seq<string>>,
    year: Option<string>,
    docType: Option<string>)

  /**
   * A freshly constructed document: every field but `titleId` still null.
   * The id starts as the empty string; the parser overwrites it with the
   * header line before anything reads it.
   */
  const Blank := DocumentValue("", None, None, None, None, None)

  class Document {
    var titleId: string
    var title: Option<seq<string>>
    var plot: Option<seq<string>>
    var episodeTitle: Option<seq<string>>
    var year: Option<string>
    var docType: Option<string>

    /** `new Document()`; the parser sets `titleId` right afterwards. */
    constructor ()
      ensures Value() == Blank
    {
      titleId := "";
      title, plot, episodeTitle := None, None, None;
      year, docType := None, None;
    }

    function Value(): DocumentValue
      reads this
    {
      DocumentValue(titleId, title, plot, episodeTitle, year, docType)
    }
  }

  /** The values the listed documents hold now, entry by entry. */
  function Values(docs: seq<Document>): (r: seq<DocumentValue>)
    reads set i | 0 <= i < |docs| :: docs[i]
    ensures |r| == |docs|
    ensures forall i :: 0 <= i < |docs| ==> r[i] == docs[i].Value()
    decreases |docs|
  {
    if docs == [] then [] else Values(docs[..|docs| - 1]) + [docs[|docs| - 1].Value()]
  }
}
