/**
 * What the chapter splitter guarantees: chapter titles are the preface
 * followed by a selection of the heading lines in book order, every kept
 * chapter is non-empty and well formed, and the chapters' text is the text of
 * the non-heading lines.
 */
module ChapterProperties {
  import opened Strings
  import opened Lines
  import opened Paragraphs
  import opened ParagraphProperties
  import opened Chapters

  // ----------------------------------------------------------------------
  // Sequence facts
  // ----------------------------------------------------------------------

  lemma {:induction false} TitlesAppend(a: seq<Chapter>, b: seq<Chapter>)
    ensures Titles(a + b) == Titles(a) + Titles(b)
  {
    if |a| == 0 {
      assert a + b == b;
    } else {
      assert (a + b)[1..] == a[1..] + b;
      TitlesAppend(a[1..], b);
    }
  }

  lemma {:induction false} ChapterTextAppend(cfg: Config, a: seq<Chapter>, b: seq<Chapter>)
    ensures ChapterText(cfg, a + b) == ChapterText(cfg, a) + ChapterText(cfg, b)
  {
    if |a| == 0 {
      assert a + b == b;
    } else {
      assert (a + b)[1..] == a[1..] + b;
      ChapterTextAppend(cfg, a[1..], b);
    }
  }

  lemma {:induction false} SubseqLength<T>(a: seq<T>, b: seq<T>)
    requires IsSubseq(a, b)
    ensures |a| <= |b|
    decreases |b|
  {
    if |a| > 0 {
      if a[0] == b[0] && IsSubseq(a[1..], b[1..]) {
        SubseqLength(a[1..], b[1..]);
      } else {
        SubseqLength(a, b[1..]);
      }
    }
  }

  lemma {:induction false} SubseqMember<T>(a: seq<T>, b: seq<T>, x: T)
    requires IsSubseq(a, b) && x in a
    ensures x in b
    decreases |b|
  {
    if a[0] == b[0] && IsSubseq(a[1..], b[1..]) {
      if x != a[0] {
        SubseqMember(a[1..], b[1..], x);
      }
    } else {
      SubseqMember(a, b[1..], x);
    }
  }

  /** Anything that fits in `b` fits in `b` with one more element at the front. */
  lemma SubseqSkip<T>(a: seq<T>, x: T, b: seq<T>)
    requires IsSubseq(a, b)
    ensures IsSubseq(a, [x] + b)
  {
    assert ([x] + b)[1..] == b;
  }

  /** A common first element can be kept. */
  lemma SubseqKeep<T>(x: T, a: seq<T>, b: seq<T>)
    requires IsSubseq(a, b)
    ensures IsSubseq([x] + a, [x] + b)
  {
    assert ([x] + a)[1..] == a;
    assert ([x] + b)[1..] == b;
  }

  // ----------------------------------------------------------------------
  // Closing a chapter
  // ----------------------------------------------------------------------

  /** The chapter closed from `buf` carries the text of `buf`'s non-blank lines. */
  lemma FinaliseText(cfg: Config, title: string, buf: seq<string>)
    ensures ChapterText(cfg, Finalise(cfg, title, buf)) == Concat(Content(buf))
  {
    ProcessParagraphsText(buf, cfg.mode, cfg.forceIndent);
    var ch := Finalise(cfg, title, buf);
    if |ch| == 1 {
      assert ChapterText(cfg, ch) == Text(Marker(cfg.forceIndent), ch[0].paragraphs) + ChapterText(cfg, ch[1..]);
    }
  }

  /**
   * A chapter is kept exactly when its lines hold a non-blank line; it then
   * carries the title in progress and is well formed.
   */
  lemma FinaliseShape(cfg: Config, title: string, buf: seq<string>)
    ensures |Finalise(cfg, title, buf)| == (if NonBlankCount(buf) > 0 then 1 else 0)
    ensures forall ch :: ch in Finalise(cfg, title, buf) ==> ch.title == title && WellFormedChapter(cfg, ch)
  {
    BodiesEmpty(buf, cfg.mode);
    ProcessParagraphsText(buf, cfg.mode, cfg.forceIndent);
    if |buf| == 0 {
      assert NonBlankCount(buf) == 0;
    }
  }

  // ----------------------------------------------------------------------
  // Titles
  // ----------------------------------------------------------------------

  lemma {:induction false} SplitFromTitles(cfg: Config, lines: seq<string>, title: string, buf: seq<string>)
    ensures IsSubseq(Titles(SplitFrom(cfg, lines, title, buf)), [title] + Headings(cfg, lines))
    decreases |lines|
  {
    if |lines| == 0 {
      FinaliseShape(cfg, title, buf);
      var f := Finalise(cfg, title, buf);
      if |f| == 1 {
        assert Titles(f) == [title];
        assert IsSubseq(Titles(f)[1..], ([title] + Headings(cfg, lines))[1..]);
      }
    } else {
      var line := lines[0];
      var rest := lines[1..];
      if Strip(line) == "" {
        SplitFromTitles(cfg, rest, title, buf + [""]);
        assert Headings(cfg, lines) == Headings(cfg, rest);
      } else if cfg.isHeading(Strip(line)) {
        var h := Strip(line);
        var f := Finalise(cfg, title, buf);
        var s := SplitFrom(cfg, rest, h, []);
        SplitFromTitles(cfg, rest, h, []);
        TitlesAppend(f, s);
        assert Headings(cfg, lines) == [h] + Headings(cfg, rest);
        FinaliseShape(cfg, title, buf);
        if |f| == 1 {
          assert Titles(f) == [title];
          SubseqKeep(title, Titles(s), [h] + Headings(cfg, rest));
        } else {
          assert Titles(f) + Titles(s) == Titles(s);
          SubseqSkip(Titles(s), title, [h] + Headings(cfg, rest));
        }
      } else {
        SplitFromTitles(cfg, rest, title, buf + [line]);
        assert Headings(cfg, lines) == Headings(cfg, rest);
      }
    }
  }

  /**
   * The chapter titles are a selection of `[Preface] + Headings`, in book
   * order, so there is at most one more chapter than headings, and every
   * title is the preface or a stripped non-empty string the heading test
   * accepts.
   */
  lemma SplitTitlesSelection(cfg: Config, lines: seq<string>)
    ensures IsSubseq(Titles(SplitChapters(cfg, lines)), [Preface] + Headings(cfg, lines))
    ensures |SplitChapters(cfg, lines)| <= |Headings(cfg, lines)| + 1
    ensures forall t :: t in Titles(SplitChapters(cfg, lines)) ==>
              t == Preface || (t in Headings(cfg, lines) && cfg.isHeading(t) && t != "" && IsStripped(t))
  {
    var ts := Titles(SplitChapters(cfg, lines));
    var hs := [Preface] + Headings(cfg, lines);
    SplitFromTitles(cfg, lines, Preface, []);
    SubseqLength(ts, hs);
    TitlesLength(SplitChapters(cfg, lines));
    forall t | t in ts
      ensures t == Preface || (t in Headings(cfg, lines) && cfg.isHeading(t) && t != "" && IsStripped(t))
    {
      SubseqMember(ts, hs, t);
    }
  }

  lemma {:induction false} TitlesLength(chapters: seq<Chapter>)
    ensures |Titles(chapters)| == |chapters|
  {
    if |chapters| > 0 {
      TitlesLength(chapters[1..]);
    }
  }

  // ----------------------------------------------------------------------
  // Placeholders
  // ----------------------------------------------------------------------

  lemma {:induction false} PlaceholdersContent(lines: seq<string>)
    ensures Content(Placeholders(lines)) == Content(lines)
  {
    if |lines| > 0 {
      PlaceholdersContent(lines[1..]);
      ContentCons(Placeholders(lines));
      ContentCons(lines);
      assert Placeholders(lines)[1..] == Placeholders(lines[1..]);
    }
  }

  // ----------------------------------------------------------------------
  // Chapter contents
  // ----------------------------------------------------------------------

  lemma {:induction false} SplitFromWellFormed(cfg: Config, lines: seq<string>, title: string, buf: seq<string>)
    ensures forall ch :: ch in SplitFrom(cfg, lines, title, buf) ==> WellFormedChapter(cfg, ch)
    decreases |lines|
  {
    if |lines| == 0 {
      FinaliseShape(cfg, title, buf);
    } else {
      var line := lines[0];
      var rest := lines[1..];
      if Strip(line) == "" {
        SplitFromWellFormed(cfg, rest, title, buf + [""]);
      } else if cfg.isHeading(Strip(line)) {
        FinaliseShape(cfg, title, buf);
        SplitFromWellFormed(cfg, rest, Strip(line), []);
      } else {
        SplitFromWellFormed(cfg, rest, title, buf + [line]);
      }
    }
  }

  /**
   * Every chapter kept has at least one paragraph; every paragraph has a
   * non-empty body and opens with `<p>` and the configured marker, so under
   * force-indent every paragraph opens with two full-width spaces.
   */
  lemma SplitWellFormed(cfg: Config, lines: seq<string>)
    ensures forall ch :: ch in SplitChapters(cfg, lines) ==> WellFormedChapter(cfg, ch)
    ensures cfg.forceIndent ==>
              forall ch, p :: ch in SplitChapters(cfg, lines) && p in ch.paragraphs ==> StartsWith(p, "<p>" + IndentMarker)
  {
    SplitFromWellFormed(cfg, lines, Preface, []);
  }

  /** Content of a blank line appended to a buffer. */
  lemma ContentAppendBlank(buf: seq<string>, line: string)
    requires IsBlank(line)
    ensures Content(buf + [line]) == Content(buf)
  {
    ContentAppend(buf, [line]);
    ContentCons([line]);
    assert [line][1..] == [];
  }

  /** Content of a non-blank line appended to a buffer. */
  lemma ContentAppendLine(buf: seq<string>, line: string)
    requires !IsBlank(line)
    ensures Content(buf + [line]) == Content(buf) + [Strip(line)]
  {
    ContentAppend(buf, [line]);
    ContentCons([line]);
    assert [line][1..] == [];
  }

  /** One step of SplitFromText at a line that is not a heading. */
  lemma SplitTextAtBody(cfg: Config, lines: seq<string>, buf: seq<string>, buf': seq<string>, s: string)
    requires |lines| > 0 && !IsHeadingLine(cfg, lines[0])
    requires Concat(Content(buf')) == Concat(Content(buf)) + Concat(Content([lines[0]]))
    requires s == Concat(Content(buf')) + Concat(Content(BodyLines(cfg, lines[1..])))
    ensures s == Concat(Content(buf)) + Concat(Content(BodyLines(cfg, lines)))
  {
    var rest := BodyLines(cfg, lines[1..]);
    assert BodyLines(cfg, lines) == [lines[0]] + rest;
    ContentAppend([lines[0]], rest);
    ConcatAppend(Content([lines[0]]), Content(rest));
    StringAssoc(Concat(Content(buf)), Concat(Content([lines[0]])), Concat(Content(rest)));
  }

  /** SplitFromText at a blank line, given the claim for the remaining lines. */
  lemma SplitTextAtBlank(cfg: Config, lines: seq<string>, title: string, buf: seq<string>)
    requires |lines| > 0 && Strip(lines[0]) == ""
    requires ChapterText(cfg, SplitFrom(cfg, lines[1..], title, buf + [""]))
             == Concat(Content(buf + [""])) + Concat(Content(BodyLines(cfg, lines[1..])))
    ensures ChapterText(cfg, SplitFrom(cfg, lines, title, buf)) == Concat(Content(buf)) + Concat(Content(BodyLines(cfg, lines)))
  {
    var line := lines[0];
    ContentAppendBlank(buf, "");
    ContentAppendBlank([], line);
    assert [] + [line] == [line];
    SplitTextAtBody(cfg, lines, buf, buf + [""], ChapterText(cfg, SplitFrom(cfg, lines, title, buf)));
  }

  /** A heading line contributes nothing to the body lines. */
  lemma BodyLinesAtHeading(cfg: Config, lines: seq<string>)
    requires |lines| > 0 && IsHeadingLine(cfg, lines[0])
    ensures BodyLines(cfg, lines) == BodyLines(cfg, lines[1..])
  {
    assert [] + BodyLines(cfg, lines[1..]) == BodyLines(cfg, lines[1..]);
  }

  /** SplitFromText at a heading line, given the claim for the remaining lines. */
  lemma SplitTextAtHeading(cfg: Config, lines: seq<string>, title: string, buf: seq<string>)
    requires |lines| > 0 && Strip(lines[0]) != "" && cfg.isHeading(Strip(lines[0]))
    requires ChapterText(cfg, SplitFrom(cfg, lines[1..], Strip(lines[0]), [])) == Concat(Content(BodyLines(cfg, lines[1..])))
    ensures ChapterText(cfg, SplitFrom(cfg, lines, title, buf)) == Concat(Content(buf)) + Concat(Content(BodyLines(cfg, lines)))
  {
    var f := Finalise(cfg, title, buf);
    var s := SplitFrom(cfg, lines[1..], Strip(lines[0]), []);
    assert SplitFrom(cfg, lines, title, buf) == f + s;
    FinaliseText(cfg, title, buf);
    ChapterTextAppend(cfg, f, s);
    BodyLinesAtHeading(cfg, lines);
  }

  /** SplitFromText at a body line, given the claim for the remaining lines. */
  lemma SplitTextAtLine(cfg: Config, lines: seq<string>, title: string, buf: seq<string>)
    requires |lines| > 0 && Strip(lines[0]) != "" && !cfg.isHeading(Strip(lines[0]))
    requires ChapterText(cfg, SplitFrom(cfg, lines[1..], title, buf + [lines[0]]))
             == Concat(Content(buf + [lines[0]])) + Concat(Content(BodyLines(cfg, lines[1..])))
    ensures ChapterText(cfg, SplitFrom(cfg, lines, title, buf)) == Concat(Content(buf)) + Concat(Content(BodyLines(cfg, lines)))
  {
    var line := lines[0];
    ContentAppendLine(buf, line);
    ConcatSnoc(Content(buf), Strip(line));
    ContentAppendLine([], line);
    assert [] + [line] == [line];
    ConcatSingle(Strip(line));
    SplitTextAtBody(cfg, lines, buf, buf + [line], ChapterText(cfg, SplitFrom(cfg, lines, title, buf)));
  }

  lemma {:induction false} SplitFromText(cfg: Config, lines: seq<string>, title: string, buf: seq<string>)
    ensures ChapterText(cfg, SplitFrom(cfg, lines, title, buf)) == Concat(Content(buf)) + Concat(Content(BodyLines(cfg, lines)))
    decreases |lines|
  {
    if |lines| == 0 {
      FinaliseText(cfg, title, buf);
      assert BodyLines(cfg, lines) == [];
    } else if Strip(lines[0]) == "" {
      SplitFromText(cfg, lines[1..], title, buf + [""]);
      SplitTextAtBlank(cfg, lines, title, buf);
    } else if cfg.isHeading(Strip(lines[0])) {
      SplitFromText(cfg, lines[1..], Strip(lines[0]), []);
      assert Concat(Content([])) == "";
      SplitTextAtHeading(cfg, lines, title, buf);
    } else {
      SplitFromText(cfg, lines[1..], title, buf + [lines[0]]);
      SplitTextAtLine(cfg, lines, title, buf);
    }
  }

  /**
   * The chapters together carry exactly the text of the book's non-heading
   * lines, stripped, in order: no text is lost or duplicated, and no heading
   * line reaches a chapter body.
   */
  lemma SplitText(cfg: Config, lines: seq<string>)
    ensures ChapterText(cfg, SplitChapters(cfg, lines)) == Concat(Content(BodyLines(cfg, lines)))
  {
    SplitFromText(cfg, lines, Preface, []);
    assert Content([]) == [];
  }

  // ----------------------------------------------------------------------
  // The default heading pattern
  // ----------------------------------------------------------------------

  /**
   * The default pattern by the shape of the text it accepts: 第, a non-empty
   * stretch, 章, a further stretch, and at most one final line break, with no
   * line break in either stretch.
   */
  lemma DefaultHeadingShape(t: string)
    ensures DefaultHeading(t) <==>
              exists a: string, b: string, e: string ::
                t == "第" + a + "章" + b + e && a != "" && NoNewline(a) && NoNewline(b) && (e == "" || e == "\n")
  {
    if DefaultHeading(t) {
      var a, b, e := HeadingShapeOf(t);
    }
    forall a: string, b: string, e: string |
      t == "第" + a + "章" + b + e && a != "" && NoNewline(a) && NoNewline(b) && (e == "" || e == "\n")
      ensures DefaultHeading(t)
    {
      HeadingFromPieces(a, b, e);
    }
  }

  /** The pieces of a text the default pattern accepts. */
  lemma HeadingShapeOf(t: string) returns (a: string, b: string, e: string)
    requires DefaultHeading(t)
    ensures t == "第" + a + "章" + b + e && a != "" && NoNewline(a) && NoNewline(b) && (e == "" || e == "\n")
  {
    var j :| 2 <= j < |t| && t[j] == '章' && NoNewline(t[1..j])
             && (NoNewline(t[j + 1..]) || (t[|t| - 1] == '\n' && NoNewline(t[j + 1..|t| - 1])));
    var k := |t|;
    if !NoNewline(t[j + 1..]) {
      assert |t[j + 1..]| > 0;
      k := |t| - 1;
    }
    HeadingPieces(t, j, k);
    a, b, e := t[1..j], t[j + 1..k], t[k..];
  }

  lemma HeadingPieces(t: string, j: nat, k: nat)
    requires 1 <= j && j + 1 <= k <= |t| && t[0] == '第' && t[j] == '章'
    requires k == |t| || (k == |t| - 1 && t[k] == '\n')
    ensures t == "第" + t[1..j] + "章" + t[j + 1..k] + t[k..]
    ensures t[k..] == "" || t[k..] == "\n"
  {
    var r := "第" + t[1..j] + "章" + t[j + 1..k] + t[k..];
    assert |r| == |t|;
    forall x | 0 <= x < |t| ensures r[x] == t[x] {
    }
    if k == |t| - 1 {
      assert t[k..] == [t[k]];
    }
  }

  lemma HeadingFromPieces(a: string, b: string, e: string)
    requires a != "" && NoNewline(a) && NoNewline(b) && (e == "" || e == "\n")
    ensures DefaultHeading("第" + a + "章" + b + e)
  {
    var t := "第" + a + "章" + b + e;
    var j := |a| + 1;
    assert t[0] == '第' && t[j] == '章';
    assert t[1..j] == a;
    if e == "" {
      assert t[j + 1..] == b;
    } else {
      assert t[|t| - 1] == '\n';
      assert t[j + 1..|t| - 1] == b;
    }
  }

  /** `第一章 开始` is a heading under the default pattern; `前言` and `第章` are not. */
  lemma DefaultHeadingExamples()
    ensures DefaultHeading("第一章 开始")
    ensures !DefaultHeading("前言")
    ensures !DefaultHeading("第章")
    ensures !DefaultHeading("第三回")
  {
    assert "第一章 开始"[2] == '章';
  }

  // ----------------------------------------------------------------------
  // Entries
  // ----------------------------------------------------------------------

  /**
   * A chapter's entry text gives its paragraphs back when split at line
   * breaks, provided no paragraph holds a line break itself: the join loses
   * nothing.
   */
  lemma EntriesSplit(chapters: seq<Chapter>, k: nat)
    requires k < |chapters| && |chapters[k].paragraphs| > 0
    requires forall p :: p in chapters[k].paragraphs ==> NoNewline(p)
    ensures Entries(chapters)[k].0 == chapters[k].title
    ensures SplitLines(Entries(chapters)[k].1) == chapters[k].paragraphs
  {
    var ps := chapters[k].paragraphs;
    forall i | 0 <= i < |ps| ensures NoNewline(ps[i]) {
      assert ps[i] in ps;
    }
    SplitJoin(ps);
  }
}
