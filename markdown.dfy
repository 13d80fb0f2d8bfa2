/** Markdown-like text to document blocks (the line loop of
    `criar_docx_bytes`): the reply is split on newlines, each line stripped;
    blank lines are skipped, a line starting with `#` becomes a heading, a
    line starting with `- ` or `* ` a `List Bullet` paragraph of the rest,
    and any other line a plain paragraph; paragraphs get their runs from
    the bold splitter. */
module Markdown {
  import opened Wrappers
  import opened Text
  import opened Docx
  import opened Bold

  /** Python's `min(level, 9)`: Word has heading styles 1 to 9. */
  const MaxHeadingLevel: nat := 9

  /** The block a stripped, non-blank line becomes. The heading level counts
      every `#` in the line, not only the leading ones. */
  function Classify(line: string): Block
    requires line != []
  {
    if line[0] == '#' then
      var n := Count(line, '#');
      Heading(Strip(LStripChar(line, '#')), if n < MaxHeadingLevel then n else MaxHeadingLevel)
    else if StartsWith(line, "- ") || StartsWith(line, "* ") then
      Paragraph(ListBullet, Spans(line[2..]))
    else
      Paragraph(Normal, Spans(line))
  }

  /** What one line of the reply contributes: nothing when it is blank. */
  function RenderLine(raw: string): Option<Block> {
    var line := Strip(raw);
    if line == [] then None else Some(Classify(line))
  }

  function OptionToSeq(o: Option<Block>): seq<Block> {
    if o.Some? then [o.value] else []
  }

  /** The blocks of a list of lines, in order. */
  function RenderLines(lines: seq<string>): seq<Block> {
    if lines == [] then []
    else RenderLines(lines[..|lines| - 1]) + OptionToSeq(RenderLine(lines[|lines| - 1]))
  }

  /** The blocks of a whole reply. */
  function Render(text: string): seq<Block> {
    RenderLines(Split(text, '\n'))
  }

  /** The stripped lines that are not blank, in order. */
  function NonBlank(lines: seq<string>): (r: seq<string>)
    ensures |r| <= |lines|
    ensures forall k :: 0 <= k < |r| ==> r[k] != [] && Strip(r[k]) == r[k]
  {
    if lines == [] then []
    else
      var line := Strip(lines[|lines| - 1]);
      StripIdempotent(lines[|lines| - 1]);
      NonBlank(lines[..|lines| - 1]) + (if line == [] then [] else [line])
  }

  /** Rendering works line by line: the blocks of two runs of lines are the
      blocks of the first followed by those of the second. */
  lemma {:induction false} RenderLinesAppend(a: seq<string>, b: seq<string>)
    ensures RenderLines(a + b) == RenderLines(a) + RenderLines(b)
    decreases |b|
  {
    if b == [] {
      assert a + b == a;
    } else {
      var b' := b[..|b| - 1];
      var last := b[|b| - 1];
      assert a + b == (a + b') + [last];
      assert b == b' + [last];
      RenderLinesAppend(a, b');
      RenderLinesSnoc(a + b', last);
      RenderLinesSnoc(b', last);
    }
  }

  /** One more line adds its block, if any, at the end. */
  lemma RenderLinesSnoc(lines: seq<string>, line: string)
    ensures RenderLines(lines + [line]) == RenderLines(lines) + OptionToSeq(RenderLine(line))
  {
    assert (lines + [line])[..|lines|] == lines;
  }

  /** Every line that is not blank after stripping yields exactly one block
      and every blank line none, in the order of the lines. */
  lemma {:induction false} OneBlockPerLine(lines: seq<string>)
    ensures |RenderLines(lines)| == |NonBlank(lines)|
    ensures forall k :: 0 <= k < |NonBlank(lines)| ==>
              RenderLines(lines)[k] == Classify(NonBlank(lines)[k])
  {
    if lines != [] {
      OneBlockPerLine(lines[..|lines| - 1]);
    }
  }

  /** A blank line, wherever it stands, adds no block. */
  lemma BlankLineIgnored(before: seq<string>, blank: string, after: seq<string>)
    requires forall k :: 0 <= k < |blank| ==> IsSpace(blank[k])
    ensures RenderLines(before + [blank] + after) == RenderLines(before + after)
  {
    assert Strip(blank) == [];
    assert RenderLines([blank]) == RenderLines([]) + OptionToSeq(RenderLine(blank)) by {
      assert [blank][..0] == [];
    }
    RenderLinesAppend(before, [blank]);
    RenderLinesAppend(before + [blank], after);
    RenderLinesAppend(before, after);
  }

  /** Headings are tested first: a line is a heading exactly when it starts
      with `#`; its level is in 1..9, the number of `#` in the whole line
      capped at 9; its text is stripped, and shorter than the line. */
  lemma ClassifyHeading(line: string)
    requires line != []
    ensures Classify(line).Heading? <==> line[0] == '#'
    ensures Classify(line).Heading? ==>
              && 1 <= Classify(line).level <= 9
              && (Count(line, '#') <= 9 ==> Classify(line).level == Count(line, '#'))
              && (Count(line, '#') >= 9 ==> Classify(line).level == 9)
              && |Classify(line).text| < |line|
              && Strip(Classify(line).text) == Classify(line).text
  {
    if line[0] == '#' {
      assert '#' in line;
      StripIdempotent(LStripChar(line, '#'));
    }
  }

  /** The text of a heading is what follows the leading run of `#`,
      stripped: removing more or fewer `#` would leave a different text. */
  lemma HeadingText(line: string, n: nat)
    requires line != [] && line[0] == '#'
    requires n <= |line| && (forall k :: 0 <= k < n ==> line[k] == '#')
    requires n < |line| ==> line[n] != '#'
    ensures Classify(line).text == Strip(line[n..])
  {
    var r := LStripChar(line, '#');
    var m := |line| - |r|;
    assert m == n;
  }

  /** A line that is not a heading is a bullet exactly when it starts with
      `- ` or `* `; the bullet's runs come from the text after those two
      characters, and a plain paragraph's from the whole line. */
  lemma ClassifyParagraph(line: string)
    requires line != []
    ensures (Classify(line).Paragraph? && Classify(line).style == ListBullet)
            <==> (line[0] != '#' && (StartsWith(line, "- ") || StartsWith(line, "* ")))
    ensures Classify(line).Paragraph? && Classify(line).style == ListBullet ==>
              Classify(line).runs == Spans(line[2..])
    ensures Classify(line).Paragraph? && Classify(line).style == Normal ==>
              Classify(line).runs == Spans(line)
  {
  }

  /** The body of the loop of `criar_docx_bytes`: the block for one raw
      line, if any, is added to the document. */
  method AddLine(doc: Document, raw: string)
    modifies doc
    ensures doc.blocks == old(doc.blocks) + OptionToSeq(RenderLine(raw))
  {
    var line := Strip(raw);
    if line == [] {
      return;
    }
    assert RenderLine(raw) == Some(Classify(line));
    if line[0] == '#' {
      AddHeadingLine(doc, line);
    } else {
      AddParagraphLine(doc, line);
    }
  }

  /** A `#` line becomes a heading: the text after the `#` run, stripped,
      at the `#` count capped at the largest level. */
  method AddHeadingLine(doc: Document, line: string)
    requires line != [] && line[0] == '#'
    modifies doc
    ensures doc.blocks == old(doc.blocks) + [Classify(line)]
  {
    var level := Count(line, '#');
    doc.AddHeading(Strip(LStripChar(line, '#')), if level < MaxHeadingLevel then level else MaxHeadingLevel);
  }

  /** Any other line becomes a paragraph filled by the bold splitter, from
      the text after `- ` or `* ` for a bullet. */
  method AddParagraphLine(doc: Document, line: string)
    requires line != [] && line[0] != '#'
    modifies doc
    ensures doc.blocks == old(doc.blocks) + [Classify(line)]
  {
    var bullet := StartsWith(line, "- ") || StartsWith(line, "* ");
    var style := if bullet then ListBullet else Normal;
    var rest := if bullet then line[2..] else line;
    assert Classify(line) == Paragraph(style, Spans(rest));
    var p := new ParagraphBuilder(style);
    FormatBold(p, rest);
    assert p.Value() == Classify(line);
    doc.AddParagraph(p);
  }

  /** `criar_docx_bytes` up to saving: one pass over the lines, adding a
      heading or a paragraph (filled by the bold splitter) per non-blank
      line. */
  method CreateDocument(text: string) returns (blocks: seq<Block>)
    ensures blocks == Render(text)
  {
    var doc := new Document();
    var lines := Split(text, '\n');
    var k := 0;
    while k < |lines|
      invariant k <= |lines|
      invariant doc.blocks == RenderLines(lines[..k])
    {
      AddLine(doc, lines[k]);
      assert lines[..k + 1][..k] == lines[..k];
      k := k + 1;
    }
    assert lines[..k] == lines;
    blocks := doc.blocks;
  }

}
