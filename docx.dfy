/** The part of a word-processor document that the report generator
    builds: headings, and paragraphs made of runs that are bold or not.
    A paragraph is an object whose runs are appended one at a time; the
    document keeps its blocks in order. Saving to bytes is not modelled. */
module Docx {

  /** One run of text, bold or plain. */
  datatype Span = Span(text: string, bold: bool)

  /** The paragraph styles used: the default one and `List Bullet`. */
  datatype Style = Normal | ListBullet

  /** A block of the document body. A heading level is a plain number;
      whether a heading style exists for it is not checked. */
  datatype Block =
    | Heading(text: string, level: nat)
    | Paragraph(style: Style, runs: seq<Span>)

  /** A paragraph being filled in: `add_run` appends a run. */
  class ParagraphBuilder {
    var style: Style
    var runs: seq<Span>

    constructor (style: Style)
      ensures this.style == style && runs == []
    {
      this.style := style;
      runs := [];
    }

    method AddRun(text: string, bold: bool)
      modifies this
      ensures runs == old(runs) + [Span(text, bold)]
      ensures style == old(style)
    {
      runs := runs + [Span(text, bold)];
    }

    /** The block this paragraph stands for. */
    function Value(): Block
      reads this
    {
      Paragraph(style, runs)
    }
  }

  /** The document: `add_heading` and `add_paragraph` append a block. */
  class Document {
    var blocks: seq<Block>

    constructor ()
      ensures blocks == []
    {
      blocks := [];
    }

    method AddHeading(text: string, level: nat)
      modifies this
      ensures blocks == old(blocks) + [Heading(text, level)]
    {
      blocks := blocks + [Heading(text, level)];
    }

    method AddParagraph(p: ParagraphBuilder)
      modifies this
      ensures blocks == old(blocks) + [p.Value()]
    {
      blocks := blocks + [p.Value()];
    }
  }

}
