/**
  * The printable document the composers build, kept abstract: chapters holding string
  * contents, tables, code blocks and titled sub-paragraphs. How a document is rendered
  * (Markdown or otherwise) is not part of this model.
  */
module Documents {

  /** A link element: the text shown, the path linked to and a tooltip. */
  datatype Hyperlink = Hyperlink(displayString: string, hyperlink: string, toolTip: string)

  /** A table cell holds plain text or a printed hyperlink. */
  datatype Cell = TextCell(text: string) | LinkCell(link: Hyperlink)

  /** Header row and data rows, in the order they were added. */
  datatype Table = Table(headers: seq<string>, rows: seq<seq<Cell>>)

  /** The content blocks a chapter (or a sub-paragraph) holds, in the order they were added. */
  datatype Element =
    | StringContent(content: string)
    | TableContent(table: Table)
    | CodeBlock(language: string, lines: seq<string>)
    | Paragraph(title: string, body: seq<Element>)

  datatype Chapter = Chapter(title: string, body: seq<Element>)

  datatype Document = Document(title: string, defaultFileExtension: string, chapters: seq<Chapter>)

  /** The document builder of one output kind; all that the composers see of the kind is
    * its default file extension. */
  datatype DocumentFactory = DocumentFactory(defaultFileExtension: string) {
    /** `Create(title)`: a new, empty document. */
    function Create(title: string): Document
    {
      Document(title, defaultFileExtension, [])
    }
  }

  /** The host settings the composers read: `Environment.NewLine` and the directory
    * separator that `Path.Combine` inserts. */
  datatype Platform = Platform(newLine: string, directorySeparator: char)

  /** `Path.Combine(a, b)`: an empty `b` leaves `a`; a rooted `b` (one starting with the
    * separator) replaces `a`; otherwise one separator joins them unless `a` already ends in one. */
  function PathCombine(separator: char, a: string, b: string): string
  {
    if b == [] then a
    else if a == [] || b[0] == separator then b
    else if a[|a| - 1] == separator then a + b
    else a + [separator] + b
  }

  /** The chapter titles of a document, in order. */
  function Titles(chapters: seq<Chapter>): (r: seq<string>)
    ensures |r| == |chapters|
  {
    seq(|chapters|, i requires 0 <= i < |chapters| => chapters[i].title)
  }

  /** Titles distribute over joining chapter lists. */
  lemma TitlesAppend(a: seq<Chapter>, b: seq<Chapter>)
    ensures Titles(a + b) == Titles(a) + Titles(b)
  {
  }
}
