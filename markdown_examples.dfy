/** Single-line examples (a `#` title, a bullet with a bold word, a plain
    line) and an edge case of the bullet test, derived from the general
    lemmas. */
module MarkdownExamples {
  import opened Wrappers
  import opened Text
  import opened Docx
  import opened Bold
  import opened Markdown

  /** A stripped line is rendered by `Classify`. */
  lemma StrippedLine(line: string)
    requires line != [] && !IsSpace(line[0]) && !IsSpace(line[|line| - 1])
    ensures RenderLine(line) == Some(Classify(line))
  {
    StripUnchanged(line);
  }

  /** `# title` with no other `#` is a level-1 heading whose text is the
      title. */
  lemma SingleHashHeading(title: string)
    requires title != [] && '#' !in title
    requires !IsSpace(title[0]) && !IsSpace(title[|title| - 1])
    ensures Classify("# " + title) == Heading(title, 1)
  {
    var line := "# " + title;
    assert line[1..] == " " + title;
    assert Count(" " + title, '#') == 0;
    assert Count(line, '#') == 1;
    assert LStripChar(line, '#') == " " + title;
    assert LeadingSpaces(" " + title) == 1 by {
      assert (" " + title)[1..] == title;
    }
    assert Strip(" " + title) == title by {
      assert LStrip(" " + title) == title;
      StripUnchanged(title);
    }
  }

  /** `**x**` starts with `*` but not with `* `, so it is a plain paragraph
      with a bold run, not a bullet. */
  lemma BoldLineIsNotBullet()
    ensures Classify("**x**") == Paragraph(Normal, [Span("", false), Span("x", true), Span("", false)])
  {
    BoldX();
    assert !StartsWith("**x**", "* ");
  }

  lemma BoldX()
    ensures Spans("**x**") == [Span("", false), Span("x", true), Span("", false)]
  {
    OneBoldWord("", "x", "");
    assert "" + "**" + "x" + "**" + "" == "**x**";
  }

  /** A reply of three lines renders to the blocks of each, in order. */
  lemma RenderThreeLines(l1: string, l2: string, l3: string)
    requires '\n' !in l1 && '\n' !in l2 && '\n' !in l3
    ensures Render(l1 + "\n" + l2 + "\n" + l3)
            == OptionToSeq(RenderLine(l1)) + OptionToSeq(RenderLine(l2)) + OptionToSeq(RenderLine(l3))
  {
    ExampleLines(l1, l2, l3);
    ThreeLines(l1, l2, l3);
  }

  lemma ExampleLines(l1: string, l2: string, l3: string)
    requires '\n' !in l1 && '\n' !in l2 && '\n' !in l3
    ensures Split(l1 + "\n" + l2 + "\n" + l3, '\n') == [l1, l2, l3]
  {
    var lines := [l1, l2, l3];
    assert Join(lines, '\n') == l1 + "\n" + l2 + "\n" + l3 by {
      assert lines[1..] == [l2, l3];
      assert lines[1..][1..] == [l3];
      assert Join(lines[1..], '\n') == l2 + "\n" + l3;
    }
    SplitJoin(lines, '\n');
  }

  /** Three lines render to the blocks of each, in order. */
  lemma ThreeLines(l1: string, l2: string, l3: string)
    ensures RenderLines([l1, l2, l3])
            == OptionToSeq(RenderLine(l1)) + OptionToSeq(RenderLine(l2)) + OptionToSeq(RenderLine(l3))
  {
    assert [l1, l2, l3][..2] == [l1, l2];
    assert [l1, l2][..1] == [l1];
    assert [l1][..0] == [];
    assert RenderLines([l1]) == OptionToSeq(RenderLine(l1));
    assert RenderLines([l1, l2]) == OptionToSeq(RenderLine(l1)) + OptionToSeq(RenderLine(l2));
  }

  lemma TitleLine(title: string)
    requires title != [] && '#' !in title && '\n' !in title
    requires !IsSpace(title[0]) && !IsSpace(title[|title| - 1])
    ensures OptionToSeq(RenderLine("# " + title)) == [Heading(title, 1)]
  {
    TitleStripped(title);
    SingleHashHeading(title);
  }

  lemma TitleStripped(title: string)
    requires title != [] && '\n' !in title
    requires !IsSpace(title[0]) && !IsSpace(title[|title| - 1])
    ensures '\n' !in "# " + title
    ensures Strip("# " + title) == "# " + title
  {
    var l := "# " + title;
    assert l[|l| - 1] == title[|title| - 1];
    assert l[0] == '#';
    StripUnchanged(l);
  }

  lemma BulletLine(word: string, item: string)
    requires '*' !in word && '\n' !in word
    requires '*' !in item && '\n' !in item && (item != [] ==> !IsSpace(item[|item| - 1]))
    ensures OptionToSeq(RenderLine("- **" + word + "**" + item))
            == [Paragraph(ListBullet, [Span("", false), Span(word, true), Span(item, false)])]
  {
    var l := "- **" + word + "**" + item;
    BulletShape(word, item);
    StrippedLine(l);
    OneBoldWord("", word, item);
  }

  lemma BulletShape(word: string, item: string)
    requires item != [] ==> !IsSpace(item[|item| - 1])
    ensures var l := "- **" + word + "**" + item;
            !IsSpace(l[|l| - 1]) && StartsWith(l, "- ") && l[2..] == "" + "**" + word + "**" + item
  {
    var l := "- **" + word + "**" + item;
    assert l[|l| - 1] == if item == [] then '*' else item[|item| - 1];
    assert l[..2] == "- ";
    assert l[2..] == "**" + word + "**" + item;
  }

  lemma BulletNoNewline(word: string, item: string)
    requires '\n' !in word && '\n' !in item
    ensures '\n' !in "- **" + word + "**" + item
  {
  }

  lemma PlainLine(plain: string)
    requires plain != [] && '*' !in plain && '\n' !in plain && plain[0] != '#' && plain[0] != '-'
    requires !IsSpace(plain[0]) && !IsSpace(plain[|plain| - 1])
    ensures OptionToSeq(RenderLine(plain)) == [Paragraph(Normal, [Span(plain, false)])]
  {
    StrippedLine(plain);
    NoStarsOnePlainRun(plain);
    assert plain[0] in plain;
  }

}
