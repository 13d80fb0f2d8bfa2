/** A three-line reply (a title, a bullet with a bold word, a plain line),
    rendered end to end from the facts about single lines. */
module WorkedExample {
  import opened Text
  import opened Docx
  import opened Markdown
  import opened MarkdownExamples

  /** A three-line reply, for any title, bold word,
      item text and plain line of the same shape as `# Title`,
      `- **Bold** item` and `Plain line`. Note the empty plain run in front
      of the bold one: `re.split` yields an empty first piece when the text
      starts with a match. */
  lemma RenderExample(title: string, word: string, item: string, plain: string)
    requires title != [] && '#' !in title && '\n' !in title
    requires !IsSpace(title[0]) && !IsSpace(title[|title| - 1])
    requires '*' !in word && '\n' !in word
    requires '*' !in item && '\n' !in item && (item != [] ==> !IsSpace(item[|item| - 1]))
    requires plain != [] && '*' !in plain && '\n' !in plain && plain[0] != '#' && plain[0] != '-'
    requires !IsSpace(plain[0]) && !IsSpace(plain[|plain| - 1])
    ensures Render(("# " + title) + "\n" + ("- **" + word + "**" + item) + "\n" + plain)
            == [Heading(title, 1),
                Paragraph(ListBullet, [Span("", false), Span(word, true), Span(item, false)]),
                Paragraph(Normal, [Span(plain, false)])]
  {
    ExampleSplit(title, word, item, plain);
    ExampleBlocks(title, word, item, plain);
  }

  lemma ExampleBlocks(title: string, word: string, item: string, plain: string)
    requires title != [] && '#' !in title && '\n' !in title
    requires !IsSpace(title[0]) && !IsSpace(title[|title| - 1])
    requires '*' !in word && '\n' !in word
    requires '*' !in item && '\n' !in item && (item != [] ==> !IsSpace(item[|item| - 1]))
    requires plain != [] && '*' !in plain && '\n' !in plain && plain[0] != '#' && plain[0] != '-'
    requires !IsSpace(plain[0]) && !IsSpace(plain[|plain| - 1])
    ensures OptionToSeq(RenderLine("# " + title)) + OptionToSeq(RenderLine("- **" + word + "**" + item))
            + OptionToSeq(RenderLine(plain))
            == [Heading(title, 1),
                Paragraph(ListBullet, [Span("", false), Span(word, true), Span(item, false)]),
                Paragraph(Normal, [Span(plain, false)])]
  {
    TitleLine(title);
    BulletLine(word, item);
    PlainLine(plain);
    ThreeSingletons(OptionToSeq(RenderLine("# " + title)), OptionToSeq(RenderLine("- **" + word + "**" + item)),
      OptionToSeq(RenderLine(plain)), Heading(title, 1),
      Paragraph(ListBullet, [Span("", false), Span(word, true), Span(item, false)]),
      Paragraph(Normal, [Span(plain, false)]));
  }

  lemma ThreeSingletons<T>(a: seq<T>, b: seq<T>, c: seq<T>, x: T, y: T, z: T)
    requires a == [x] && b == [y] && c == [z]
    ensures a + b + c == [x, y, z]
  {
  }

  lemma ExampleSplit(title: string, word: string, item: string, plain: string)
    requires title != [] && '#' !in title && '\n' !in title
    requires !IsSpace(title[0]) && !IsSpace(title[|title| - 1])
    requires '*' !in word && '\n' !in word
    requires '*' !in item && '\n' !in item && (item != [] ==> !IsSpace(item[|item| - 1]))
    requires '\n' !in plain
    ensures Render(("# " + title) + "\n" + ("- **" + word + "**" + item) + "\n" + plain)
            == OptionToSeq(RenderLine("# " + title)) + OptionToSeq(RenderLine("- **" + word + "**" + item))
               + OptionToSeq(RenderLine(plain))
  {
    TitleStripped(title);
    BulletNoNewline(word, item);
    RenderThreeLines("# " + title, "- **" + word + "**" + item, plain);
  }

}
