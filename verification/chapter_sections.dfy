/**
 * The chapter splitter against the book cut into sections at its heading
 * lines: every heading closes the chapter in progress and opens the next, and
 * each section becomes one chapter, titled by its heading, exactly when it
 * holds a non-blank line.
 */
module ChapterSections {
  import opened Strings
  import opened Lines
  import opened Paragraphs
  import opened Grouping
  import opened Chapters
  import opened ParagraphProperties
  import opened ChapterProperties

  // ----------------------------------------------------------------------
  // One step of the splitter
  // ----------------------------------------------------------------------

  /** A line that is not a heading joins the chapter in progress as its placeholder. */
  lemma SplitFromAtBody(cfg: Config, lines: seq<string>, title: string, buf: seq<string>)
    requires |lines| > 0 && !IsHeadingLine(cfg, lines[0])
    ensures SplitFrom(cfg, lines, title, buf) == SplitFrom(cfg, lines[1..], title, buf + [Placeholder(lines[0])])
  {
  }

  /** A heading line closes the chapter in progress and opens one under its stripped text. */
  lemma SplitFromAtHeadingLine(cfg: Config, lines: seq<string>, title: string, buf: seq<string>)
    requires |lines| > 0 && IsHeadingLine(cfg, lines[0])
    ensures SplitFrom(cfg, lines, title, buf) ==
              Finalise(cfg, title, buf) + SplitFrom(cfg, lines[1..], Strip(lines[0]), [])
  {
  }

  lemma PlaceholdersCons(lines: seq<string>)
    requires |lines| > 0
    ensures Placeholders(lines) == [Placeholder(lines[0])] + Placeholders(lines[1..])
  {
  }

  lemma NoHeadingLineTail(cfg: Config, lines: seq<string>)
    requires |lines| > 0 && NoHeadingLine(cfg, lines)
    ensures !IsHeadingLine(cfg, lines[0]) && NoHeadingLine(cfg, lines[1..])
  {
    assert forall k :: 0 <= k < |lines| - 1 ==> lines[1..][k] == lines[k + 1];
  }

  /** Having no heading line is having no headings. */
  lemma {:induction false} NoHeadingLineIff(cfg: Config, lines: seq<string>)
    ensures NoHeadingLine(cfg, lines) <==> Headings(cfg, lines) == []
  {
    if |lines| > 0 {
      NoHeadingLineIff(cfg, lines[1..]);
      if IsHeadingLine(cfg, lines[0]) {
        assert Headings(cfg, lines)[0] == Strip(lines[0]);
      } else {
        assert Headings(cfg, lines) == Headings(cfg, lines[1..]);
        if NoHeadingLine(cfg, lines[1..]) {
          forall k | 0 <= k < |lines| ensures !IsHeadingLine(cfg, lines[k]) {
            if k > 0 {
              assert lines[k] == lines[1..][k - 1];
            }
          }
        } else {
          var k :| 0 <= k < |lines[1..]| && IsHeadingLine(cfg, lines[1..][k]);
          assert lines[k + 1] == lines[1..][k];
        }
      }
    }
  }

  // ----------------------------------------------------------------------
  // Lines before a heading
  // ----------------------------------------------------------------------

  /**
   * Lines without a heading among them all join the chapter in progress, as
   * their placeholders, in order.
   */
  lemma {:induction false} SplitFromPrefix(cfg: Config, pre: seq<string>, post: seq<string>, title: string, buf: seq<string>)
    requires NoHeadingLine(cfg, pre)
    ensures SplitFrom(cfg, pre + post, title, buf) == SplitFrom(cfg, post, title, buf + Placeholders(pre))
    decreases |pre|
  {
    if |pre| == 0 {
      AppendEmpty(post);
      AppendEmpty(buf);
    } else {
      AppendTail(pre, post);
      NoHeadingLineTail(cfg, pre);
      SplitFromAtBody(cfg, pre + post, title, buf);
      SplitFromPrefix(cfg, pre[1..], post, title, buf + [Placeholder(pre[0])]);
      PlaceholdersCons(pre);
      SnocAssoc(buf, Placeholder(pre[0]), Placeholders(pre[1..]));
    }
  }

  /**
   * A heading line closes the chapter in progress: everything before it goes
   * into the chapter being closed, and everything after it into a new
   * chapter under the heading's stripped text.
   */
  lemma SplitFromAtHeading(cfg: Config, pre: seq<string>, h: string, post: seq<string>, title: string, buf: seq<string>)
    requires Headings(cfg, pre) == [] && IsHeadingLine(cfg, h)
    ensures SplitFrom(cfg, pre + [h] + post, title, buf) ==
              Finalise(cfg, title, buf + Placeholders(pre)) + SplitFrom(cfg, post, Strip(h), [])
  {
    NoHeadingLineIff(cfg, pre);
    MidAssoc(pre, h, post);
    SplitFromPrefix(cfg, pre, [h] + post, title, buf);
    SplitFromAtHeadingLine(cfg, [h] + post, title, buf + Placeholders(pre));
  }

  // ----------------------------------------------------------------------
  // The splitter closes one chapter per section
  // ----------------------------------------------------------------------

  lemma SectionsFromUnfold(cfg: Config, lines: seq<string>, title: string)
    ensures var i := FirstHeading(cfg, lines);
            SectionsFrom(cfg, lines, title) ==
              [Section(title, lines[..i])] + (if i == |lines| then [] else SectionsFrom(cfg, lines[i + 1..], Strip(lines[i])))
  {
  }

  lemma SectionChaptersCons(cfg: Config, s: Section, rest: seq<Section>)
    ensures SectionChapters(cfg, [s] + rest) == Finalise(cfg, s.title, Placeholders(s.body)) + SectionChapters(cfg, rest)
  {
    assert ([s] + rest)[1..] == rest;
  }

  /** The splitter from a fresh chapter, on lines without a heading. */
  lemma SplitFromLastSection(cfg: Config, lines: seq<string>, title: string)
    requires NoHeadingLine(cfg, lines)
    ensures SplitFrom(cfg, lines, title, []) == SectionChapters(cfg, [Section(title, lines)])
  {
    SplitFromPrefix(cfg, lines, [], title, []);
    AppendEmpty(lines);
    AppendEmpty(Placeholders(lines));
    SectionChaptersCons(cfg, Section(title, lines), []);
    AppendEmpty(Finalise(cfg, title, Placeholders(lines)));
  }

  /** The splitter from a fresh chapter, up to and through the first heading. */
  lemma SplitFromSectionStep(cfg: Config, lines: seq<string>, title: string, i: nat)
    requires i < |lines| && NoHeadingLine(cfg, lines[..i]) && IsHeadingLine(cfg, lines[i])
    ensures SplitFrom(cfg, lines, title, []) ==
              Finalise(cfg, title, Placeholders(lines[..i])) + SplitFrom(cfg, lines[i + 1..], Strip(lines[i]), [])
  {
    CutAt(lines, i);
    SplitFromPrefix(cfg, lines[..i], lines[i..], title, []);
    AppendEmpty(Placeholders(lines[..i]));
    SplitFromAtHeadingLine(cfg, lines[i..], title, Placeholders(lines[..i]));
  }

  lemma {:induction false} SplitBySectionsFrom(cfg: Config, lines: seq<string>, title: string)
    ensures SplitFrom(cfg, lines, title, []) == SectionChapters(cfg, SectionsFrom(cfg, lines, title))
    decreases |lines|
  {
    var i := FirstHeading(cfg, lines);
    SectionsFromUnfold(cfg, lines, title);
    if i == |lines| {
      assert lines[..i] == lines;
      SplitFromLastSection(cfg, lines, title);
    } else {
      var h := Strip(lines[i]);
      SplitFromSectionStep(cfg, lines, title, i);
      SplitBySectionsFrom(cfg, lines[i + 1..], h);
      SectionChaptersCons(cfg, Section(title, lines[..i]), SectionsFrom(cfg, lines[i + 1..], h));
    }
  }

  /**
   * The splitter is the book cut at every heading line, each section closed
   * as a chapter in order: a section's chapter is the segmentation of its
   * lines (blank lines as placeholders) under its title, kept when non-empty.
   */
  lemma SplitBySections(cfg: Config, lines: seq<string>)
    ensures SplitChapters(cfg, lines) == SectionChapters(cfg, Sections(cfg, lines))
  {
    SplitBySectionsFrom(cfg, lines, Preface);
  }

  // ----------------------------------------------------------------------
  // The sections partition the book
  // ----------------------------------------------------------------------

  lemma HeadingsAppend(cfg: Config, a: seq<string>, b: seq<string>)
    ensures Headings(cfg, a + b) == Headings(cfg, a) + Headings(cfg, b)
    ensures BodyLines(cfg, a + b) == BodyLines(cfg, a) + BodyLines(cfg, b)
  {
    HeadingsOnlyAppend(cfg, a, b);
    BodyLinesAppend(cfg, a, b);
  }

  lemma {:induction false} HeadingsOnlyAppend(cfg: Config, a: seq<string>, b: seq<string>)
    ensures Headings(cfg, a + b) == Headings(cfg, a) + Headings(cfg, b)
  {
    if |a| == 0 {
      AppendEmpty(b);
    } else {
      AppendTail(a, b);
      HeadingsOnlyAppend(cfg, a[1..], b);
      var x := if IsHeadingLine(cfg, a[0]) then [Strip(a[0])] else [];
      PlusAssoc(x, Headings(cfg, a[1..]), Headings(cfg, b));
    }
  }

  lemma {:induction false} BodyLinesAppend(cfg: Config, a: seq<string>, b: seq<string>)
    ensures BodyLines(cfg, a + b) == BodyLines(cfg, a) + BodyLines(cfg, b)
  {
    if |a| == 0 {
      AppendEmpty(b);
    } else {
      AppendTail(a, b);
      BodyLinesAppend(cfg, a[1..], b);
      var x := if IsHeadingLine(cfg, a[0]) then [] else [a[0]];
      PlusAssoc(x, BodyLines(cfg, a[1..]), BodyLines(cfg, b));
    }
  }

  /** Lines without a heading line are all body lines. */
  lemma {:induction false} NoHeadingBody(cfg: Config, lines: seq<string>)
    requires NoHeadingLine(cfg, lines)
    ensures Headings(cfg, lines) == [] && BodyLines(cfg, lines) == lines
  {
    if |lines| > 0 {
      NoHeadingLineTail(cfg, lines);
      NoHeadingBody(cfg, lines[1..]);
    }
  }

  /** The lines of a book split into those before a heading, the heading, and those after. */
  lemma HeadingsAtCut(cfg: Config, lines: seq<string>, i: nat)
    requires i < |lines| && NoHeadingLine(cfg, lines[..i]) && IsHeadingLine(cfg, lines[i])
    ensures Headings(cfg, lines) == [Strip(lines[i])] + Headings(cfg, lines[i + 1..])
    ensures BodyLines(cfg, lines) == lines[..i] + BodyLines(cfg, lines[i + 1..])
  {
    CutAt(lines, i);
    HeadingsAppend(cfg, lines[..i], lines[i..]);
    NoHeadingBody(cfg, lines[..i]);
    AppendEmpty(Headings(cfg, lines[i..]));
    AppendEmpty(BodyLines(cfg, lines[i + 1..]));
  }

  lemma {:induction false} SectionTitlesFrom(cfg: Config, lines: seq<string>, title: string)
    ensures SectionTitles(SectionsFrom(cfg, lines, title)) == [title] + Headings(cfg, lines)
    decreases |lines|
  {
    var i := FirstHeading(cfg, lines);
    var secs := SectionsFrom(cfg, lines, title);
    SectionsFromUnfold(cfg, lines, title);
    assert secs[1..] == (if i == |lines| then [] else SectionsFrom(cfg, lines[i + 1..], Strip(lines[i])));
    if i == |lines| {
      assert lines[..i] == lines;
      NoHeadingBody(cfg, lines);
    } else {
      SectionTitlesFrom(cfg, lines[i + 1..], Strip(lines[i]));
      HeadingsAtCut(cfg, lines, i);
    }
  }

  lemma {:induction false} SectionBodiesFrom(cfg: Config, lines: seq<string>, title: string)
    ensures Flatten(SectionBodies(SectionsFrom(cfg, lines, title))) == BodyLines(cfg, lines)
    decreases |lines|
  {
    var i := FirstHeading(cfg, lines);
    var secs := SectionsFrom(cfg, lines, title);
    SectionsFromUnfold(cfg, lines, title);
    var rest := secs[1..];
    assert rest == (if i == |lines| then [] else SectionsFrom(cfg, lines[i + 1..], Strip(lines[i])));
    assert SectionBodies(secs) == [lines[..i]] + SectionBodies(rest);
    assert Flatten(SectionBodies(secs)) == lines[..i] + Flatten(SectionBodies(rest));
    if i == |lines| {
      assert lines[..i] == lines;
      NoHeadingBody(cfg, lines);
      AppendEmpty(lines);
    } else {
      SectionBodiesFrom(cfg, lines[i + 1..], Strip(lines[i]));
      HeadingsAtCut(cfg, lines, i);
    }
  }

  lemma {:induction false} SectionsNoHeadingFrom(cfg: Config, lines: seq<string>, title: string)
    ensures forall k :: 0 <= k < |SectionsFrom(cfg, lines, title)| ==> NoHeadingLine(cfg, SectionsFrom(cfg, lines, title)[k].body)
    decreases |lines|
  {
    var i := FirstHeading(cfg, lines);
    var secs := SectionsFrom(cfg, lines, title);
    SectionsFromUnfold(cfg, lines, title);
    if i < |lines| {
      var rest := SectionsFrom(cfg, lines[i + 1..], Strip(lines[i]));
      SectionsNoHeadingFrom(cfg, lines[i + 1..], Strip(lines[i]));
      forall k | 0 <= k < |secs| ensures NoHeadingLine(cfg, secs[k].body) {
        if k > 0 {
          assert secs[k] == rest[k - 1];
        }
      }
    }
  }

  /**
   * The sections partition the book: their titles are the preface followed
   * by every stripped heading, in order; their bodies laid end to end are the
   * non-heading lines, in order; and no body holds a heading line.
   */
  lemma SectionsPartition(cfg: Config, lines: seq<string>)
    ensures SectionTitles(Sections(cfg, lines)) == [Preface] + Headings(cfg, lines)
    ensures |Sections(cfg, lines)| == |Headings(cfg, lines)| + 1
    ensures Flatten(SectionBodies(Sections(cfg, lines))) == BodyLines(cfg, lines)
    ensures forall k :: 0 <= k < |Sections(cfg, lines)| ==> NoHeadingLine(cfg, Sections(cfg, lines)[k].body)
  {
    SectionTitlesFrom(cfg, lines, Preface);
    SectionBodiesFrom(cfg, lines, Preface);
    SectionsNoHeadingFrom(cfg, lines, Preface);
  }

  // ----------------------------------------------------------------------
  // Titles
  // ----------------------------------------------------------------------

  /** A section's blank lines and their placeholders are both blank. */
  lemma PlaceholdersCount(lines: seq<string>)
    ensures NonBlankCount(Placeholders(lines)) == NonBlankCount(lines)
  {
    PlaceholdersContent(lines);
  }

  /** The chapter a section closes into carries the section's title, when it is kept. */
  lemma FinaliseTitles(cfg: Config, s: Section)
    ensures Titles(Finalise(cfg, s.title, Placeholders(s.body))) == (if NonBlankCount(s.body) > 0 then [s.title] else [])
  {
    var f := Finalise(cfg, s.title, Placeholders(s.body));
    FinaliseShape(cfg, s.title, Placeholders(s.body));
    PlaceholdersCount(s.body);
    if |f| == 1 {
      assert f[0] in f;
      assert Titles(f) == [f[0].title] + Titles(f[1..]);
    }
  }

  lemma {:induction false} SectionChaptersTitles(cfg: Config, secs: seq<Section>)
    ensures Titles(SectionChapters(cfg, secs)) == KeptTitles(secs)
  {
    if |secs| > 0 {
      var f := Finalise(cfg, secs[0].title, Placeholders(secs[0].body));
      SectionChaptersTitles(cfg, secs[1..]);
      TitlesAppend(f, SectionChapters(cfg, secs[1..]));
      FinaliseTitles(cfg, secs[0]);
    }
  }

  /**
   * The chapter titles are the preface followed by the stripped headings,
   * each kept exactly when its section holds a non-blank line. Hence they are
   * a selection of `[Preface] + Headings` in book order, there is at most one
   * more chapter than headings, and every title is the preface or a stripped
   * non-empty string the heading test accepts.
   */
  lemma SplitTitles(cfg: Config, lines: seq<string>)
    ensures Titles(SplitChapters(cfg, lines)) == KeptTitles(Sections(cfg, lines))
    ensures IsSubseq(Titles(SplitChapters(cfg, lines)), [Preface] + Headings(cfg, lines))
    ensures |SplitChapters(cfg, lines)| <= |Headings(cfg, lines)| + 1
    ensures forall t :: t in Titles(SplitChapters(cfg, lines)) ==>
              t == Preface || (t in Headings(cfg, lines) && cfg.isHeading(t) && t != "" && IsStripped(t))
  {
    SplitBySections(cfg, lines);
    SectionChaptersTitles(cfg, Sections(cfg, lines));
    SplitTitlesSelection(cfg, lines);
  }

  // ----------------------------------------------------------------------
  // Books without headings
  // ----------------------------------------------------------------------

  lemma SplitFromNoHeadings(cfg: Config, lines: seq<string>, title: string, buf: seq<string>)
    requires Headings(cfg, lines) == []
    ensures SplitFrom(cfg, lines, title, buf) == Finalise(cfg, title, buf + Placeholders(lines))
  {
    NoHeadingLineIff(cfg, lines);
    SplitFromPrefix(cfg, lines, [], title, buf);
    AppendEmpty(lines);
  }

  /**
   * A book without heading lines is one chapter titled with the preface,
   * holding every line, or no chapter at all when it has no text.
   */
  lemma NoHeadingsOneChapter(cfg: Config, lines: seq<string>)
    requires Headings(cfg, lines) == []
    ensures |SplitChapters(cfg, lines)| == (if NonBlankCount(lines) > 0 then 1 else 0)
    ensures forall ch :: ch in SplitChapters(cfg, lines) ==> ch.title == Preface
    ensures ChapterText(cfg, SplitChapters(cfg, lines)) == Concat(Content(lines))
  {
    var buf := Placeholders(lines);
    SplitFromNoHeadings(cfg, lines, Preface, []);
    AppendEmpty(buf);
    FinaliseShape(cfg, Preface, buf);
    FinaliseText(cfg, Preface, buf);
    PlaceholdersContent(lines);
  }
}
