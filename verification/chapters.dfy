/**
 * The chapter splitter: the loop of txt_to_epub.py that walks every line of
 * the book, takes heading lines as chapter titles, and hands each chapter's
 * lines to the paragraph segmenter.
 */
module Chapters {
  import opened Strings
  import opened Lines
  import opened Paragraphs
  import opened Grouping

  /** The title of the chapter in progress before the first heading. */
  const Preface: string := "前言"

  /**
   * The options the splitter consumes: the heading test applied to the
   * stripped line (the compiled `chapter_pattern`), `paragraph_mode` and
   * `force_indent`.
   */
  datatype Config = Config(isHeading: string -> bool, mode: Mode, forceIndent: bool)

  /**
   * A chapter: its title and its rendered paragraphs. The source keeps the
   * paragraphs joined by newlines; Entries performs that join.
   */
  datatype Chapter = Chapter(title: string, paragraphs: seq<string>)

  /**
   * The default pattern `^第.+章.*$` under `re.match`: the text starts with
   * 第, a 章 follows after at least one further character, no line break
   * comes before the end (`.` does not match one), and `$` also accepts one
   * final line break.
   */
  predicate DefaultHeading(t: string) {
    && |t| >= 3
    && t[0] == '第'
    && exists j :: 2 <= j < |t| && t[j] == '章' && NoNewline(t[1..j])
                   && (NoNewline(t[j + 1..]) || (t[|t| - 1] == '\n' && NoNewline(t[j + 1..|t| - 1])))
  }

  /** The defaults: the pattern above, `smart` mode, force-indent on. */
  function DefaultConfig(): Config
  {
    Config(DefaultHeading, SmartMode, true)
  }

  /** A non-blank line whose stripped form passes the heading test. */
  predicate IsHeadingLine(cfg: Config, line: string) {
    !IsBlank(line) && cfg.isHeading(Strip(line))
  }

  // ----------------------------------------------------------------------
  // The splitter
  // ----------------------------------------------------------------------

  /**
   * Close the chapter in progress: segment its lines and keep the chapter
   * only when it has lines and the segmentation is non-empty.
   */
  function Finalise(cfg: Config, title: string, buf: seq<string>): (r: seq<Chapter>)
    ensures |r| <= 1
    ensures forall ch :: ch in r ==> ch.title == title && |ch.paragraphs| > 0
    ensures |buf| == 0 ==> r == []
  {
    if |buf| > 0 then
      var content := ProcessParagraphs(buf, cfg.mode, cfg.forceIndent);
      if |content| > 0 then [Chapter(title, content)] else []
    else []
  }

  /**
   * The splitting loop from the chapter in progress (`title`, `buf`): a blank
   * line adds an empty placeholder, a heading line closes the chapter and
   * becomes the next title, any other line is kept raw; the end of input
   * closes the last chapter.
   */
  function SplitFrom(cfg: Config, lines: seq<string>, title: string, buf: seq<string>): seq<Chapter>
  {
    if |lines| == 0 then Finalise(cfg, title, buf)
    else
      var line := lines[0];
      if Strip(line) == "" then SplitFrom(cfg, lines[1..], title, buf + [""])
      else if cfg.isHeading(Strip(line)) then Finalise(cfg, title, buf) + SplitFrom(cfg, lines[1..], Strip(line), [])
      else SplitFrom(cfg, lines[1..], title, buf + [line])
  }

  /** The chapters of a book, starting from the preface. */
  function SplitChapters(cfg: Config, lines: seq<string>): seq<Chapter>
  {
    SplitFrom(cfg, lines, Preface, [])
  }

  /** The `(title, "\n".join(paragraphs))` pairs handed to the packager. */
  function Entries(chapters: seq<Chapter>): (r: seq<(string, string)>)
    ensures |r| == |chapters|
    ensures forall k :: 0 <= k < |r| ==> r[k].0 == chapters[k].title
  {
    seq(|chapters|, k requires 0 <= k < |chapters| => (chapters[k].title, Join("\n", chapters[k].paragraphs)))
  }

  /**
   * The splitting loop written as the source writes it: a `for` over the
   * lines with the title and line buffer as mutable state. It computes the
   * same chapters as SplitChapters.
   */
  method SplitChaptersLoop(cfg: Config, lines: seq<string>) returns (chapters: seq<Chapter>)
    ensures chapters == SplitChapters(cfg, lines)
  {
    chapters := [];
    var title := Preface;
    var chapterLines: seq<string> := [];
    var i := 0;
    while i < |lines|
      invariant 0 <= i <= |lines|
      invariant chapters + SplitFrom(cfg, lines[i..], title, chapterLines) == SplitChapters(cfg, lines)
    {
      var line := lines[i];
      assert lines[i..][0] == line && lines[i..][1..] == lines[i + 1..];
      if Strip(line) == "" {
        chapterLines := chapterLines + [""];
      } else if cfg.isHeading(Strip(line)) {
        if |chapterLines| > 0 {
          var content := ProcessParagraphs(chapterLines, cfg.mode, cfg.forceIndent);
          if |content| > 0 {
            chapters := chapters + [Chapter(title, content)];
          }
        }
        title := Strip(line);
        chapterLines := [];
      } else {
        chapterLines := chapterLines + [line];
      }
      i := i + 1;
    }
    if |chapterLines| > 0 {
      var content := ProcessParagraphs(chapterLines, cfg.mode, cfg.forceIndent);
      if |content| > 0 {
        chapters := chapters + [Chapter(title, content)];
      }
    }
  }

  // ----------------------------------------------------------------------
  // Reference definitions
  // ----------------------------------------------------------------------

  /** The stripped heading lines, in order. */
  function Headings(cfg: Config, lines: seq<string>): (r: seq<string>)
    ensures forall k :: 0 <= k < |r| ==> cfg.isHeading(r[k]) && r[k] != "" && IsStripped(r[k])
  {
    if |lines| == 0 then []
    else (if IsHeadingLine(cfg, lines[0]) then [Strip(lines[0])] else []) + Headings(cfg, lines[1..])
  }

  /** The lines that are not headings, in order (blank lines included). */
  function BodyLines(cfg: Config, lines: seq<string>): seq<string>
  {
    if |lines| == 0 then []
    else (if IsHeadingLine(cfg, lines[0]) then [] else [lines[0]]) + BodyLines(cfg, lines[1..])
  }

  function Titles(chapters: seq<Chapter>): seq<string>
  {
    if |chapters| == 0 then [] else [chapters[0].title] + Titles(chapters[1..])
  }

  /** The text of the chapters: every paragraph body, glued in order. */
  function ChapterText(cfg: Config, chapters: seq<Chapter>): string
  {
    if |chapters| == 0 then ""
    else Text(Marker(cfg.forceIndent), chapters[0].paragraphs) + ChapterText(cfg, chapters[1..])
  }

  /** `a` can be obtained from `b` by deleting elements. */
  predicate IsSubseq<T(==)>(a: seq<T>, b: seq<T>)
    decreases |b|
  {
    if |a| == 0 then true
    else if |b| == 0 then false
    else (a[0] == b[0] && IsSubseq(a[1..], b[1..])) || IsSubseq(a, b[1..])
  }

  /** A chapter with at least one paragraph, each with a non-empty body and the configured opening. */
  predicate WellFormedChapter(cfg: Config, ch: Chapter) {
    && |ch.paragraphs| > 0
    && forall p :: p in ch.paragraphs ==>
         Unrender(Marker(cfg.forceIndent), p) != "" && StartsWith(p, "<p>" + Marker(cfg.forceIndent))
  }

  // ----------------------------------------------------------------------
  // Reference definition: the book cut into sections at its headings
  // ----------------------------------------------------------------------

  /** No line is a heading line. */
  predicate NoHeadingLine(cfg: Config, lines: seq<string>) {
    forall k :: 0 <= k < |lines| ==> !IsHeadingLine(cfg, lines[k])
  }

  /** The index of the first heading line, or `|lines|` when there is none. */
  function FirstHeading(cfg: Config, lines: seq<string>): (i: nat)
    ensures i <= |lines|
    ensures NoHeadingLine(cfg, lines[..i])
    ensures i < |lines| ==> IsHeadingLine(cfg, lines[i])
  {
    if |lines| == 0 || IsHeadingLine(cfg, lines[0]) then 0
    else
      var i := FirstHeading(cfg, lines[1..]);
      NoHeadingLineCons(cfg, lines, i);
      i + 1
  }

  lemma NoHeadingLineCons(cfg: Config, lines: seq<string>, i: nat)
    requires |lines| > 0 && !IsHeadingLine(cfg, lines[0]) && i < |lines|
    requires NoHeadingLine(cfg, lines[1..][..i])
    ensures NoHeadingLine(cfg, lines[..i + 1])
  {
    var front := lines[..i + 1];
    forall k | 0 <= k < |front| ensures !IsHeadingLine(cfg, front[k]) {
      if k > 0 {
        assert front[k] == lines[1..][..i][k - 1];
      }
    }
  }

  /**
   * A section of the book: the title it is filed under (the preface, or a
   * stripped heading line) and the lines up to the next heading.
   */
  datatype Section = Section(title: string, body: seq<string>)

  /**
   * The book cut at every heading line: a section titled `title` holding the
   * lines before the first heading, then one section per heading holding the
   * lines up to the heading after it.
   */
  function SectionsFrom(cfg: Config, lines: seq<string>, title: string): (r: seq<Section>)
    ensures |r| > 0
    decreases |lines|
  {
    var i := FirstHeading(cfg, lines);
    [Section(title, lines[..i])] + (if i == |lines| then [] else SectionsFrom(cfg, lines[i + 1..], Strip(lines[i])))
  }

  /** The sections of a book, the first filed under the preface. */
  function Sections(cfg: Config, lines: seq<string>): seq<Section>
  {
    SectionsFrom(cfg, lines, Preface)
  }

  /** The line buffer a section's body leaves in the splitter: blank lines become "". */
  function Placeholder(line: string): string
  {
    if Strip(line) == "" then "" else line
  }

  function Placeholders(lines: seq<string>): (r: seq<string>)
    ensures |r| == |lines|
  {
    if |lines| == 0 then [] else [Placeholder(lines[0])] + Placeholders(lines[1..])
  }

  /** Every section closed as a chapter, in order. */
  function SectionChapters(cfg: Config, secs: seq<Section>): seq<Chapter>
  {
    if |secs| == 0 then []
    else Finalise(cfg, secs[0].title, Placeholders(secs[0].body)) + SectionChapters(cfg, secs[1..])
  }

  /** The titles of the sections that hold a non-blank line. */
  function KeptTitles(secs: seq<Section>): seq<string>
  {
    if |secs| == 0 then []
    else (if NonBlankCount(secs[0].body) > 0 then [secs[0].title] else []) + KeptTitles(secs[1..])
  }

  function SectionTitles(secs: seq<Section>): (r: seq<string>)
    ensures |r| == |secs|
  {
    if |secs| == 0 then [] else [secs[0].title] + SectionTitles(secs[1..])
  }

  function SectionBodies(secs: seq<Section>): (r: seq<seq<string>>)
    ensures |r| == |secs|
  {
    if |secs| == 0 then [] else [secs[0].body] + SectionBodies(secs[1..])
  }
}
