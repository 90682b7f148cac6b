/**
 * Properties of the paragraph segmenter: every mode keeps the chapter's text
 * in order, emits only non-empty paragraphs, and emits at most one paragraph
 * per non-blank line; `smart` mode coincides with `blank` mode unless it falls
 * back to punctuation, where every paragraph but the last closes on a
 * terminator.
 */
module ParagraphProperties {
  import opened Strings
  import opened Lines
  import opened Paragraphs

  /** Content of a non-empty sequence of lines, unfolded once. */
  lemma ContentCons(lines: seq<string>)
    requires |lines| > 0
    ensures Content(lines) == (if IsBlank(lines[0]) then [] else [Strip(lines[0])]) + Content(lines[1..])
  {
  }

  /** Gluing the text of a non-blank line in front of the rest of the chapter. */
  lemma ConcatContentCons(lines: seq<string>)
    requires |lines| > 0 && !IsBlank(lines[0])
    ensures Concat(Content(lines)) == Strip(lines[0]) + Concat(Content(lines[1..]))
  {
    ContentCons(lines);
    ConcatAppend([Strip(lines[0])], Content(lines[1..]));
    ConcatSingle(Strip(lines[0]));
  }

  // ----------------------------------------------------------------------
  // line mode
  // ----------------------------------------------------------------------

  /**
   * `line` mode yields exactly the stripped non-blank lines in order: the
   * indented branch (indent removed, then stripped) gives the same text as
   * the plain branch.
   */
  lemma {:induction false} LineModeIsContent(lines: seq<string>)
    ensures LineBodies(lines) == Content(lines)
  {
    if |lines| > 0 {
      LineModeIsContent(lines[1..]);
      StripRemoveIndent(lines[0]);
    }
  }

  /**
   * `line` mode renders one paragraph per non-blank line, in source order,
   * each `<p>` + marker + stripped line + `</p>`.
   */
  lemma LineModeParagraphs(lines: seq<string>, addIndent: bool)
    ensures |ProcessParagraphs(lines, LineMode, addIndent)| == NonBlankCount(lines)
    ensures forall i :: 0 <= i < NonBlankCount(lines) ==>
              ProcessParagraphs(lines, LineMode, addIndent)[i] == "<p>" + Marker(addIndent) + Content(lines)[i] + "</p>"
  {
    LineModeIsContent(lines);
  }

  // ----------------------------------------------------------------------
  // blank mode
  // ----------------------------------------------------------------------

  /** Content and layout flags of a chapter whose first line is blank. */
  lemma BlankStep(lines: seq<string>, afterBreak: bool)
    requires |lines| > 0 && IsBlank(lines[0])
    ensures Content(lines) == Content(lines[1..])
    ensures OpenFlags(lines, afterBreak) == OpenFlags(lines[1..], true)
  {
    ContentCons(lines);
  }

  /** `blank` mode at a blank line. */
  lemma BlankFromAtBlank(lines: seq<string>, buf: seq<string>)
    requires |lines| > 0 && IsBlank(lines[0])
    ensures BlankFrom(lines, buf) == Flush(buf) + BlankFrom(lines[1..], [])
  {
  }

  /** `blank` mode at an indented line that closes a paragraph. */
  lemma BlankFromAtIndent(lines: seq<string>, buf: seq<string>)
    requires |lines| > 0 && !IsBlank(lines[0]) && HasIndent(lines[0]) && |buf| > 0
    ensures BlankFrom(lines, buf) == Flush(buf) + BlankFrom(lines[1..], [Strip(lines[0])])
  {
    StripRemoveIndent(lines[0]);
  }

  /** `blank` mode at a line that joins the buffer. */
  lemma BlankFromAtJoin(lines: seq<string>, buf: seq<string>)
    requires |lines| > 0 && !IsBlank(lines[0]) && !(HasIndent(lines[0]) && |buf| > 0)
    ensures BlankFrom(lines, buf) == BlankFrom(lines[1..], buf + [Strip(lines[0])])
  {
    StripRemoveIndent(lines[0]);
  }

  /** `blank` mode glues back to the buffer followed by the remaining text. */
  lemma {:induction false} BlankFromText(lines: seq<string>, buf: seq<string>)
    ensures Concat(BlankFrom(lines, buf)) == Concat(buf) + Concat(Content(lines))
  {
    if |lines| > 0 {
      if IsBlank(lines[0]) {
        BlankFromText(lines[1..], []);
        BlankTextAtBlank(lines, buf);
      } else if HasIndent(lines[0]) && |buf| > 0 {
        BlankFromText(lines[1..], [Strip(lines[0])]);
        BlankTextAtIndent(lines, buf);
      } else {
        BlankFromText(lines[1..], buf + [Strip(lines[0])]);
        BlankTextAtJoin(lines, buf);
      }
    }
  }

  /** BlankFromText's step at a blank line, given its claim for the rest. */
  lemma BlankTextAtBlank(lines: seq<string>, buf: seq<string>)
    requires |lines| > 0 && IsBlank(lines[0])
    requires Concat(BlankFrom(lines[1..], [])) == Concat(Content(lines[1..]))
    ensures Concat(BlankFrom(lines, buf)) == Concat(buf) + Concat(Content(lines))
  {
    BlankFromAtBlank(lines, buf);
    BlankStep(lines, |buf| == 0);
    ConcatAppend(Flush(buf), BlankFrom(lines[1..], []));
  }

  /** BlankFromText's step at an indented line that closes a paragraph. */
  lemma BlankTextAtIndent(lines: seq<string>, buf: seq<string>)
    requires |lines| > 0 && !IsBlank(lines[0]) && HasIndent(lines[0]) && |buf| > 0
    requires Concat(BlankFrom(lines[1..], [Strip(lines[0])])) == Concat([Strip(lines[0])]) + Concat(Content(lines[1..]))
    ensures Concat(BlankFrom(lines, buf)) == Concat(buf) + Concat(Content(lines))
  {
    BlankFromAtIndent(lines, buf);
    ConcatContentCons(lines);
    ConcatAppend(Flush(buf), BlankFrom(lines[1..], [Strip(lines[0])]));
    ConcatSingle(Strip(lines[0]));
  }

  /** BlankFromText's step at a line that joins the buffer. */
  lemma BlankTextAtJoin(lines: seq<string>, buf: seq<string>)
    requires |lines| > 0 && !IsBlank(lines[0]) && !(HasIndent(lines[0]) && |buf| > 0)
    requires Concat(BlankFrom(lines[1..], buf + [Strip(lines[0])]))
             == Concat(buf + [Strip(lines[0])]) + Concat(Content(lines[1..]))
    ensures Concat(BlankFrom(lines, buf)) == Concat(buf) + Concat(Content(lines))
  {
    BlankFromAtJoin(lines, buf);
    ConcatContentCons(lines);
    ConcatSnoc(buf, Strip(lines[0]));
    StringAssoc(Concat(buf), Strip(lines[0]), Concat(Content(lines[1..])));
  }

  /** `blank` mode emits only non-empty stripped paragraphs. */
  lemma {:induction false} BlankFromStripped(lines: seq<string>, buf: seq<string>)
    requires AllNonEmptyStripped(buf)
    ensures AllNonEmptyStripped(BlankFrom(lines, buf))
  {
    if |lines| == 0 {
      FlushStripped(buf);
    } else if IsBlank(lines[0]) {
      BlankFromStripped(lines[1..], []);
      BlankStrippedAtBlank(lines, buf);
    } else if HasIndent(lines[0]) && |buf| > 0 {
      StrippedPiece(lines, []);
      BlankFromStripped(lines[1..], [Strip(lines[0])]);
      BlankStrippedAtIndent(lines, buf);
    } else {
      StrippedPiece(lines, buf);
      BlankFromStripped(lines[1..], buf + [Strip(lines[0])]);
      BlankFromAtJoin(lines, buf);
    }
  }

  /** A non-blank line's stripped text extends a buffer of non-empty stripped pieces. */
  lemma StrippedPiece(lines: seq<string>, buf: seq<string>)
    requires |lines| > 0 && !IsBlank(lines[0]) && AllNonEmptyStripped(buf)
    ensures AllNonEmptyStripped(buf + [Strip(lines[0])])
  {
    AllNonEmptyStrippedAppend(buf, [Strip(lines[0])]);
  }

  /** BlankFromStripped's step at a blank line. */
  lemma BlankStrippedAtBlank(lines: seq<string>, buf: seq<string>)
    requires |lines| > 0 && IsBlank(lines[0]) && AllNonEmptyStripped(buf)
    requires AllNonEmptyStripped(BlankFrom(lines[1..], []))
    ensures AllNonEmptyStripped(BlankFrom(lines, buf))
  {
    BlankFromAtBlank(lines, buf);
    FlushStripped(buf);
    AllNonEmptyStrippedAppend(Flush(buf), BlankFrom(lines[1..], []));
  }

  /** BlankFromStripped's step at an indented line that closes a paragraph. */
  lemma BlankStrippedAtIndent(lines: seq<string>, buf: seq<string>)
    requires |lines| > 0 && !IsBlank(lines[0]) && HasIndent(lines[0]) && |buf| > 0 && AllNonEmptyStripped(buf)
    requires AllNonEmptyStripped(BlankFrom(lines[1..], [Strip(lines[0])]))
    ensures AllNonEmptyStripped(BlankFrom(lines, buf))
  {
    BlankFromAtIndent(lines, buf);
    FlushStripped(buf);
    AllNonEmptyStrippedAppend(Flush(buf), BlankFrom(lines[1..], [Strip(lines[0])]));
  }

  /**
   * `blank` mode emits one paragraph per paragraph start, plus one for a
   * non-empty incoming buffer.
   */
  lemma {:induction false} BlankFromCount(lines: seq<string>, buf: seq<string>)
    ensures |BlankFrom(lines, buf)| == (if |buf| > 0 then 1 else 0) + ParagraphStarts(lines, |buf| == 0)
  {
    if |lines| > 0 {
      var line := lines[0];
      var rest := lines[1..];
      if Strip(line) == "" {
        BlankFromCount(rest, []);
      } else {
        var x := Strip(RemoveIndent(line));
        if HasIndent(line) && |buf| > 0 {
          BlankFromCount(rest, [x]);
        } else if HasIndent(line) {
          BlankFromCount(rest, buf + [x]);
        } else {
          BlankFromCount(rest, buf + [Strip(line)]);
        }
      }
    }
  }

  // ----------------------------------------------------------------------
  // smart mode
  // ----------------------------------------------------------------------

  /** The indentation branch of `smart` mode behaves exactly like `blank` mode. */
  lemma {:induction false} IndentFromIsBlankFrom(lines: seq<string>, buf: seq<string>)
    ensures IndentFrom(lines, buf) == BlankFrom(lines, buf)
  {
    if |lines| > 0 {
      var line := lines[0];
      var rest := lines[1..];
      if Strip(line) == "" {
        IndentFromIsBlankFrom(rest, []);
      } else if HasIndent(line) {
        var x := Strip(RemoveIndent(line));
        IndentFromIsBlankFrom(rest, [x]);
        if |buf| == 0 {
          assert buf + [x] == [x];
        }
      } else {
        IndentFromIsBlankFrom(rest, buf + [Strip(line)]);
      }
    }
  }

  /**
   * Unless `smart` mode falls back to punctuation, it produces exactly what
   * `blank` mode produces: by delegation when the chapter has blank lines but
   * no indentation, and because its indentation branch is the `blank`
   * algorithm when some non-blank line is indented. It falls back to
   * punctuation exactly when every line is non-blank and unindented.
   */
  lemma SmartMatchesBlank(lines: seq<string>)
    ensures SmartStrategy(lines) != ByPunctuation ==> Bodies(lines, SmartMode) == Bodies(lines, BlankMode)
    ensures SmartStrategy(lines) == ByPunctuation <==>
              forall i :: 0 <= i < |lines| ==> !IsBlank(lines[i]) && !HasIndent(lines[i])
  {
    IndentFromIsBlankFrom(lines, []);
  }

  /** The punctuation fallback glues back to the buffer followed by the remaining text. */
  lemma {:induction false} PunctuationFromText(lines: seq<string>, buf: seq<string>)
    ensures Concat(PunctuationFrom(lines, buf)) == Concat(buf) + Concat(Content(lines))
  {
    if |lines| > 0 {
      var line := Strip(lines[0]);
      var rest := lines[1..];
      if line == "" {
        assert Content(lines) == Content(rest);
        assert PunctuationFrom(lines, buf) == PunctuationFrom(rest, buf);
        PunctuationFromText(rest, buf);
      } else {
        ConcatContentCons(lines);
        ConcatSnoc(buf, line);
        if EndsParagraph(line) {
          assert PunctuationFrom(lines, buf) == [Concat(buf + [line])] + PunctuationFrom(rest, []);
          PunctuationFromText(rest, []);
          ConcatAppend([Concat(buf + [line])], PunctuationFrom(rest, []));
          ConcatSingle(Concat(buf + [line]));
        } else {
          assert PunctuationFrom(lines, buf) == PunctuationFrom(rest, buf + [line]);
          PunctuationFromText(rest, buf + [line]);
        }
      }
    }
  }

  /** The punctuation fallback emits only non-empty stripped paragraphs. */
  lemma {:induction false} PunctuationFromStripped(lines: seq<string>, buf: seq<string>)
    requires AllNonEmptyStripped(buf)
    ensures AllNonEmptyStripped(PunctuationFrom(lines, buf))
  {
    FlushStripped(buf);
    if |lines| > 0 {
      var line := Strip(lines[0]);
      var rest := lines[1..];
      if line == "" {
        PunctuationFromStripped(rest, buf);
      } else {
        assert AllNonEmptyStripped(buf + [line]);
        if EndsParagraph(line) {
          ConcatStripped(buf + [line]);
          PunctuationFromStripped(rest, []);
          AllNonEmptyStrippedAppend([Concat(buf + [line])], PunctuationFrom(rest, []));
        } else {
          PunctuationFromStripped(rest, buf + [line]);
        }
      }
    }
  }

  /**
   * In the punctuation fallback a flush follows every line that ends in a
   * terminator, so every paragraph except possibly the last ends in one.
   */
  lemma {:induction false} PunctuationFromEnds(lines: seq<string>, buf: seq<string>)
    ensures forall i :: 0 <= i < |PunctuationFrom(lines, buf)| - 1 ==> EndsParagraph(PunctuationFrom(lines, buf)[i])
  {
    if |lines| > 0 {
      var line := Strip(lines[0]);
      var rest := lines[1..];
      if line == "" {
        PunctuationFromEnds(rest, buf);
      } else if EndsParagraph(line) {
        PunctuationFromEnds(rest, []);
        ConcatLastChar(buf, line);
        var r := PunctuationFrom(lines, buf);
        assert r == [Concat(buf + [line])] + PunctuationFrom(rest, []);
        forall i | 0 <= i < |r| - 1 ensures EndsParagraph(r[i]) {
          if i > 0 {
            assert r[i] == PunctuationFrom(rest, [])[i - 1];
          }
        }
      } else {
        PunctuationFromEnds(rest, buf + [line]);
      }
    }
  }

  /**
   * The punctuation fallback emits one paragraph per terminated line, plus at
   * most one for text left after the last terminator.
   */
  lemma {:induction false} PunctuationFromCount(lines: seq<string>, buf: seq<string>)
    ensures TerminatedCount(lines) <= |PunctuationFrom(lines, buf)| <= TerminatedCount(lines) + 1
  {
    if |lines| > 0 {
      var line := Strip(lines[0]);
      var rest := lines[1..];
      if line == "" {
        PunctuationFromCount(rest, buf);
      } else if EndsParagraph(line) {
        PunctuationFromCount(rest, []);
      } else {
        PunctuationFromCount(rest, buf + [line]);
      }
    }
  }

  /** The punctuation fallback emits at most one paragraph per non-blank line. */
  lemma {:induction false} PunctuationFromBound(lines: seq<string>, buf: seq<string>)
    ensures |PunctuationFrom(lines, buf)| <= (if |buf| > 0 then 1 else 0) + NonBlankCount(lines)
  {
    if |lines| > 0 {
      var line := Strip(lines[0]);
      var rest := lines[1..];
      if line == "" {
        PunctuationFromBound(rest, buf);
      } else if EndsParagraph(line) {
        PunctuationFromBound(rest, []);
      } else {
        PunctuationFromBound(rest, buf + [line]);
      }
    }
  }

  /** Every paragraph but the last of a punctuation-fallback chapter ends in a terminator. */
  lemma SmartPunctuationEnds(lines: seq<string>)
    requires SmartStrategy(lines) == ByPunctuation
    ensures forall i :: 0 <= i < |Bodies(lines, SmartMode)| - 1 ==> EndsParagraph(Bodies(lines, SmartMode)[i])
    ensures TerminatedCount(lines) <= |Bodies(lines, SmartMode)| <= TerminatedCount(lines) + 1
  {
    PunctuationFromEnds(lines, []);
    PunctuationFromCount(lines, []);
  }

  // ----------------------------------------------------------------------
  // All modes
  // ----------------------------------------------------------------------

  /**
   * Content preservation: in every mode, the paragraph bodies glued together
   * are the stripped non-blank lines glued together, in order.
   */
  lemma BodiesText(lines: seq<string>, mode: Mode)
    ensures Concat(Bodies(lines, mode)) == Concat(Content(lines))
  {
    match mode
    case LineMode =>
      LineModeIsContent(lines);
    case BlankMode =>
      BlankFromText(lines, []);
    case SmartMode =>
      SmartMatchesBlank(lines);
      if SmartStrategy(lines) == ByPunctuation {
        PunctuationFromText(lines, []);
      } else {
        BlankFromText(lines, []);
      }
  }

  /** In every mode, every paragraph body is non-empty and stripped. */
  lemma BodiesStripped(lines: seq<string>, mode: Mode)
    ensures AllNonEmptyStripped(Bodies(lines, mode))
  {
    match mode
    case LineMode =>
      LineModeIsContent(lines);
    case BlankMode =>
      BlankFromStripped(lines, []);
    case SmartMode =>
      SmartMatchesBlank(lines);
      if SmartStrategy(lines) == ByPunctuation {
        PunctuationFromStripped(lines, []);
      } else {
        BlankFromStripped(lines, []);
      }
  }

  /**
   * Paragraph counts: `line` mode has one per non-blank line, `blank` mode one
   * per paragraph start, and no mode has more paragraphs than non-blank lines.
   */
  lemma BodiesCount(lines: seq<string>, mode: Mode)
    ensures mode == LineMode ==> |Bodies(lines, mode)| == NonBlankCount(lines)
    ensures mode == BlankMode ==> |Bodies(lines, mode)| == ParagraphStarts(lines, true)
    ensures |Bodies(lines, mode)| <= NonBlankCount(lines)
  {
    match mode
    case LineMode =>
      LineModeIsContent(lines);
    case BlankMode =>
      BlankFromCount(lines, []);
      ParagraphStartsBound(lines, true);
    case SmartMode =>
      SmartMatchesBlank(lines);
      if SmartStrategy(lines) == ByPunctuation {
        PunctuationFromBound(lines, []);
      } else {
        BlankFromCount(lines, []);
        ParagraphStartsBound(lines, true);
      }
  }

  /**
   * A chapter yields no paragraphs exactly when it has no non-blank line, in
   * every mode; so only text-free chapters are dropped.
   */
  lemma BodiesEmpty(lines: seq<string>, mode: Mode)
    ensures Bodies(lines, mode) == [] <==> NonBlankCount(lines) == 0
  {
    BodiesCount(lines, mode);
    BodiesText(lines, mode);
    ConcatStripped(Content(lines));
  }

  /**
   * Re-segmenting finished paragraphs in `smart` mode picks the punctuation
   * fallback: paragraph bodies are never blank and never indented.
   */
  lemma SmartReselects(lines: seq<string>, mode: Mode)
    ensures SmartStrategy(Bodies(lines, mode)) == ByPunctuation
  {
    var bodies := Bodies(lines, mode);
    BodiesStripped(lines, mode);
    forall i | 0 <= i < |bodies| ensures !IsBlank(bodies[i]) && !HasIndent(bodies[i]) {
      StripOfStripped(bodies[i]);
      if HasIndent(bodies[i]) {
        IndentIsWhitespace(bodies[i]);
      }
    }
  }

  // ----------------------------------------------------------------------
  // Rendered paragraphs
  // ----------------------------------------------------------------------

  lemma {:induction false} TextOfUnrendered(marker: string, ps: seq<string>, bodies: seq<string>)
    requires |ps| == |bodies|
    requires forall i :: 0 <= i < |ps| ==> Unrender(marker, ps[i]) == bodies[i]
    ensures Text(marker, ps) == Concat(bodies)
  {
    if |ps| > 0 {
      TextOfUnrendered(marker, ps[1..], bodies[1..]);
    }
  }

  /**
   * The rendered paragraphs, with `<p>`, `</p>` and the marker removed and
   * glued together, are the chapter's stripped non-blank lines glued
   * together; with force-indent every paragraph opens with `<p>` and two
   * full-width spaces; and no body is empty.
   */
  lemma ProcessParagraphsText(lines: seq<string>, mode: Mode, addIndent: bool)
    ensures Text(Marker(addIndent), ProcessParagraphs(lines, mode, addIndent)) == Concat(Content(lines))
    ensures forall p :: p in ProcessParagraphs(lines, mode, addIndent) ==> Unrender(Marker(addIndent), p) != ""
    ensures addIndent ==> forall p :: p in ProcessParagraphs(lines, mode, addIndent) ==> StartsWith(p, "<p>" + IndentMarker)
  {
    var ps := ProcessParagraphs(lines, mode, addIndent);
    TextOfUnrendered(Marker(addIndent), ps, Bodies(lines, mode));
    BodiesText(lines, mode);
    BodiesStripped(lines, mode);
  }
}
