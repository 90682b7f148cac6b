/**
 * The paragraph segmenter (`process_paragraphs` in txt_to_epub.py).
 *
 * Each mode is a recursive function that walks the chapter's lines while
 * threading the paragraph buffer (`current_para`) and returns the paragraph
 * BODIES, i.e. the text between `<p>`+marker and `</p>`. ProcessParagraphs
 * wraps every body in its markup, which is what the source does at each flush.
 */
module Paragraphs {
  import opened Strings
  import opened Lines
  import opened Grouping

  /** The `paragraph_mode` argument. */
  datatype Mode = LineMode | BlankMode | SmartMode

  /** The strategy `smart` mode picks once per chapter. */
  datatype Strategy = ByIndent | ByBlankLines | ByPunctuation

  /** Two full-width spaces, prepended to each paragraph under force-indent. */
  const IndentMarker: string := [FullWidthSpace, FullWidthSpace]

  /** The characters after which the punctuation fallback closes a paragraph. */
  const Terminators: set<char> := {'。', '！', '？', '.', '!', '?', '"', '\'', '」', '》', ')', '）'}

  // ----------------------------------------------------------------------
  // Reference definitions: what a chapter's lines contain
  // ----------------------------------------------------------------------

  /** The number of non-blank lines. */
  function NonBlankCount(lines: seq<string>): nat
  {
    if |lines| == 0 then 0
    else (if IsBlank(lines[0]) then 0 else 1) + NonBlankCount(lines[1..])
  }

  /**
   * The text of a chapter: the stripped form of every non-blank line, in
   * order. Every mode must reproduce this text once its paragraphs are glued.
   */
  function Content(lines: seq<string>): (r: seq<string>)
    ensures |r| == NonBlankCount(lines)
    ensures AllNonEmptyStripped(r)
  {
    if |lines| == 0 then []
    else (if IsBlank(lines[0]) then [] else [Strip(lines[0])]) + Content(lines[1..])
  }

  lemma {:induction false} ContentAppend(a: seq<string>, b: seq<string>)
    ensures Content(a + b) == Content(a) + Content(b)
  {
    if |a| == 0 {
      assert a + b == b;
    } else {
      assert (a + b)[0] == a[0];
      assert (a + b)[1..] == a[1..] + b;
      ContentAppend(a[1..], b);
    }
  }

  /** Does a paragraph (or line) end in a terminator? */
  predicate EndsParagraph(s: string) {
    s != "" && s[|s| - 1] in Terminators
  }

  /** The number of non-blank lines whose stripped form ends in a terminator. */
  function TerminatedCount(lines: seq<string>): nat
  {
    if |lines| == 0 then 0
    else (if EndsParagraph(Strip(lines[0])) then 1 else 0) + TerminatedCount(lines[1..])
  }

  /**
   * The number of paragraphs a blank-line/indentation layout opens: a
   * non-blank line opens one when it is indented or when it follows the start
   * of the chapter or a blank line (`afterBreak`).
   */
  function ParagraphStarts(lines: seq<string>, afterBreak: bool): nat
  {
    if |lines| == 0 then 0
    else if IsBlank(lines[0]) then ParagraphStarts(lines[1..], true)
    else (if afterBreak || HasIndent(lines[0]) then 1 else 0) + ParagraphStarts(lines[1..], false)
  }

  lemma {:induction false} ParagraphStartsBound(lines: seq<string>, afterBreak: bool)
    ensures ParagraphStarts(lines, afterBreak) <= NonBlankCount(lines)
  {
    if |lines| > 0 {
      ParagraphStartsBound(lines[1..], true);
      ParagraphStartsBound(lines[1..], false);
    }
  }

  /** Does any non-blank line carry indentation (`has_indented_lines`)? */
  predicate AnyIndented(lines: seq<string>) {
    exists i :: 0 <= i < |lines| && !IsBlank(lines[i]) && HasIndent(lines[i])
  }

  /** Is any line blank (`has_blank_lines`)? */
  predicate AnyBlank(lines: seq<string>) {
    exists i :: 0 <= i < |lines| && IsBlank(lines[i])
  }

  // ----------------------------------------------------------------------
  // Reference definitions: where paragraph breaks fall
  // ----------------------------------------------------------------------

  /** One paragraph per run: the run's pieces glued together. */
  function Glue(runs: seq<seq<string>>): (r: seq<string>)
    ensures |r| == |runs|
  {
    if |runs| == 0 then [] else [Concat(runs[0])] + Glue(runs[1..])
  }

  /**
   * For every non-blank line, whether the blank-line layout opens a paragraph
   * there: the line is indented, or it follows the start of the chapter or a
   * blank line (`afterBreak`).
   */
  function OpenFlags(lines: seq<string>, afterBreak: bool): (r: seq<bool>)
    ensures |r| == NonBlankCount(lines)
  {
    if |lines| == 0 then []
    else if IsBlank(lines[0]) then OpenFlags(lines[1..], true)
    else [afterBreak || HasIndent(lines[0])] + OpenFlags(lines[1..], false)
  }

  /** The punctuation layout: a piece opens a paragraph when the piece before it ends in a terminator. */
  function Breaks(parts: seq<string>): (r: seq<bool>)
    ensures |r| == |parts|
  {
    seq(|parts|, k requires 0 <= k < |parts| => k == 0 || EndsParagraph(parts[k - 1]))
  }

  // ----------------------------------------------------------------------
  // The segmenters
  // ----------------------------------------------------------------------

  /** Emit the buffer as one paragraph when it is non-empty (`if current_para:`). */
  function Flush(buf: seq<string>): (r: seq<string>)
    ensures |r| == if |buf| > 0 then 1 else 0
    ensures Concat(r) == Concat(buf)
  {
    if |buf| > 0 then
      ConcatSingle(Concat(buf));
      [Concat(buf)]
    else []
  }

  /** A flushed buffer of non-empty stripped pieces is a non-empty stripped paragraph. */
  lemma FlushStripped(buf: seq<string>)
    requires AllNonEmptyStripped(buf)
    ensures AllNonEmptyStripped(Flush(buf))
  {
    ConcatStripped(buf);
  }

  /** `line` mode: one paragraph per non-blank line. */
  function LineBodies(lines: seq<string>): (r: seq<string>)
    ensures |r| == NonBlankCount(lines)
  {
    if |lines| == 0 then []
    else
      var line := lines[0];
      var stripped := Strip(line);
      if stripped == "" then LineBodies(lines[1..])
      else if HasIndent(line) then [Strip(RemoveIndent(line))] + LineBodies(lines[1..])
      else [stripped] + LineBodies(lines[1..])
  }

  /**
   * `blank` mode from buffer `buf`: a blank line flushes, an indented line
   * flushes a non-empty buffer and opens a new one, any other line joins the
   * buffer; the end of the chapter flushes.
   */
  function BlankFrom(lines: seq<string>, buf: seq<string>): seq<string>
  {
    if |lines| == 0 then Flush(buf)
    else
      var line := lines[0];
      var stripped := Strip(line);
      if stripped == "" then Flush(buf) + BlankFrom(lines[1..], [])
      else if HasIndent(line) && |buf| > 0 then Flush(buf) + BlankFrom(lines[1..], [Strip(RemoveIndent(line))])
      else if HasIndent(line) then BlankFrom(lines[1..], buf + [Strip(RemoveIndent(line))])
      else BlankFrom(lines[1..], buf + [stripped])
  }

  /**
   * The indentation branch of `smart` mode from buffer `buf`: a blank line
   * flushes, an indented line flushes and opens a new buffer, any other line
   * joins the buffer; the end of the chapter flushes.
   */
  function IndentFrom(lines: seq<string>, buf: seq<string>): seq<string>
  {
    if |lines| == 0 then Flush(buf)
    else
      var line := lines[0];
      var stripped := Strip(line);
      if stripped == "" then Flush(buf) + IndentFrom(lines[1..], [])
      else if HasIndent(line) then Flush(buf) + IndentFrom(lines[1..], [Strip(RemoveIndent(line))])
      else IndentFrom(lines[1..], buf + [stripped])
  }

  /**
   * The punctuation fallback of `smart` mode from buffer `buf`: every
   * non-blank stripped line joins the buffer, and a line ending in a
   * terminator flushes it right away; the end of the chapter flushes.
   */
  function PunctuationFrom(lines: seq<string>, buf: seq<string>): seq<string>
  {
    if |lines| == 0 then Flush(buf)
    else
      var line := Strip(lines[0]);
      if line == "" then PunctuationFrom(lines[1..], buf)
      else if EndsParagraph(line) then [Concat(buf + [line])] + PunctuationFrom(lines[1..], [])
      else PunctuationFrom(lines[1..], buf + [line])
  }

  /** The strategy `smart` mode picks for a chapter, in priority order. */
  function SmartStrategy(lines: seq<string>): Strategy
  {
    if AnyIndented(lines) then ByIndent
    else if AnyBlank(lines) then ByBlankLines
    else ByPunctuation
  }

  /** `smart` mode; the blank-line strategy is a call of `blank` mode. */
  function SmartBodies(lines: seq<string>): seq<string>
    decreases |lines|, 1
  {
    match SmartStrategy(lines)
    case ByIndent => IndentFrom(lines, [])
    case ByBlankLines => Bodies(lines, BlankMode)
    case ByPunctuation => PunctuationFrom(lines, [])
  }

  /** The paragraph bodies of a chapter under `mode`. */
  function Bodies(lines: seq<string>, mode: Mode): seq<string>
    decreases |lines|, if mode.SmartMode? then 2 else 0
  {
    match mode
    case LineMode => LineBodies(lines)
    case BlankMode => BlankFrom(lines, [])
    case SmartMode => SmartBodies(lines)
  }

  // ----------------------------------------------------------------------
  // Markup
  // ----------------------------------------------------------------------

  /** The marker `add_indent` selects. */
  function Marker(addIndent: bool): string
  {
    if addIndent then IndentMarker else ""
  }

  /** `f"<p>{indent_str}{body}</p>"`. */
  function Render(marker: string, body: string): string
  {
    "<p>" + marker + body + "</p>"
  }

  /**
   * The body of a rendered paragraph: `<p>`, the marker and `</p>` removed.
   * A string that is not shaped like a rendered paragraph is returned as is.
   */
  function Unrender(marker: string, p: string): string
  {
    var open := "<p>" + marker;
    if |p| >= |open| + 4 && p[..|open|] == open && p[|p| - 4..] == "</p>" then p[|open|..|p| - 4]
    else p
  }

  /** Rendering then unrendering gives back the body. */
  lemma UnrenderRender(marker: string, body: string)
    ensures Unrender(marker, Render(marker, body)) == body
  {
    var p := Render(marker, body);
    var open := "<p>" + marker;
    assert p == open + body + "</p>";
    assert p[..|open|] == open;
    assert p[|p| - 4..] == "</p>";
    assert p[|open|..|p| - 4] == body;
  }

  /** The bodies of rendered paragraphs, glued together. */
  function Text(marker: string, paragraphs: seq<string>): string
  {
    if |paragraphs| == 0 then "" else Unrender(marker, paragraphs[0]) + Text(marker, paragraphs[1..])
  }

  /**
   * `process_paragraphs(text_lines, mode, add_indent)`: one rendered
   * paragraph per body, in order, each opening with `<p>` and the marker and
   * closing with `</p>`, and giving its body back under Unrender.
   */
  function ProcessParagraphs(lines: seq<string>, mode: Mode, addIndent: bool): (r: seq<string>)
    ensures |r| == |Bodies(lines, mode)|
    ensures forall i :: 0 <= i < |r| ==>
              StartsWith(r[i], "<p>" + Marker(addIndent)) && EndsWith(r[i], "</p>")
              && Unrender(Marker(addIndent), r[i]) == Bodies(lines, mode)[i]
  {
    var bodies := Bodies(lines, mode);
    var marker := Marker(addIndent);
    forall i | 0 <= i < |bodies|
      ensures Unrender(marker, Render(marker, bodies[i])) == bodies[i]
    {
      UnrenderRender(marker, bodies[i]);
    }
    seq(|bodies|, i requires 0 <= i < |bodies| => Render(marker, bodies[i]))
  }
}
