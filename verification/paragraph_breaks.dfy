/**
 * Where the segmenter puts paragraph breaks. Each mode's paragraphs are the
 * chapter's stripped non-blank lines cut into runs of consecutive whole
 * lines, each run glued into one body:
 *
 *  - `blank` mode (and `smart` mode unless it falls back to punctuation)
 *    opens a run at every non-blank line that is indented or follows the
 *    start of the chapter or a blank line;
 *  - the punctuation fallback opens a run after every line ending in a
 *    terminator, so within a run only the last line may end in one.
 */
module ParagraphBreaks {
  import opened Strings
  import opened Lines
  import opened Grouping
  import opened Paragraphs
  import opened ParagraphProperties

  // ----------------------------------------------------------------------
  // Glued runs
  // ----------------------------------------------------------------------

  lemma {:induction false} GlueAppend(a: seq<seq<string>>, b: seq<seq<string>>)
    ensures Glue(a + b) == Glue(a) + Glue(b)
  {
    if |a| == 0 {
      assert a + b == b;
    } else {
      assert (a + b)[1..] == a[1..] + b;
      GlueAppend(a[1..], b);
    }
  }

  /** A buffer held as one run is the paragraph a flush emits. */
  lemma LeadFlush(buf: seq<string>)
    ensures Glue(Runs(buf, Lead(|buf|))) == Flush(buf)
  {
    if |buf| > 0 {
      RunsWhole(buf, Lead(|buf|));
      assert [buf][1..] == [];
    }
  }

  // ----------------------------------------------------------------------
  // blank mode
  // ----------------------------------------------------------------------

  /** After a break, the first non-blank line opens a paragraph. */
  lemma {:induction false} OpenFlagsAfterBreak(lines: seq<string>)
    ensures OpenFlags(lines, true) == [] || OpenFlags(lines, true)[0]
  {
    if |lines| > 0 && IsBlank(lines[0]) {
      OpenFlagsAfterBreak(lines[1..]);
    }
  }

  /** A buffer held as one run, followed by runs that open afresh. */
  lemma RunsAfterBuffer(buf: seq<string>, c: seq<string>, f: seq<bool>)
    requires |c| == |f| && (|c| == 0 || f[0])
    ensures Glue(Runs(buf + c, Lead(|buf|) + f)) == Flush(buf) + Glue(Runs(c, f))
  {
    RunsAppend(buf, Lead(|buf|), c, f);
    GlueAppend(Runs(buf, Lead(|buf|)), Runs(c, f));
    LeadFlush(buf);
  }

  /** Content and layout flags of a chapter whose first line is not blank. */
  lemma NonBlankStep(lines: seq<string>, afterBreak: bool)
    requires |lines| > 0 && !IsBlank(lines[0])
    ensures Content(lines) == [Strip(lines[0])] + Content(lines[1..])
    ensures OpenFlags(lines, afterBreak) == [afterBreak || HasIndent(lines[0])] + OpenFlags(lines[1..], false)
  {
    ContentCons(lines);
  }

  /** BlankFromRuns's step at a blank line, given its claim for the rest. */
  lemma BlankRunsAtBlank(lines: seq<string>, buf: seq<string>)
    requires |lines| > 0 && IsBlank(lines[0])
    requires BlankFrom(lines[1..], []) == Glue(Runs(Content(lines[1..]), OpenFlags(lines[1..], true)))
    ensures BlankFrom(lines, buf) == Glue(Runs(buf + Content(lines), Lead(|buf|) + OpenFlags(lines, |buf| == 0)))
  {
    BlankFromAtBlank(lines, buf);
    BlankStep(lines, |buf| == 0);
    OpenFlagsAfterBreak(lines[1..]);
    RunsAfterBuffer(buf, Content(lines[1..]), OpenFlags(lines[1..], true));
  }

  /** BlankFromRuns's step at an indented line that closes a paragraph. */
  lemma BlankRunsAtIndent(lines: seq<string>, buf: seq<string>)
    requires |lines| > 0 && !IsBlank(lines[0]) && HasIndent(lines[0]) && |buf| > 0
    requires BlankFrom(lines[1..], [Strip(lines[0])])
             == Glue(Runs([Strip(lines[0])] + Content(lines[1..]), Lead(1) + OpenFlags(lines[1..], false)))
    ensures BlankFrom(lines, buf) == Glue(Runs(buf + Content(lines), Lead(|buf|) + OpenFlags(lines, |buf| == 0)))
  {
    BlankFromAtIndent(lines, buf);
    NonBlankStep(lines, |buf| == 0);
    LeadOne();
    RunsAfterBuffer(buf, [Strip(lines[0])] + Content(lines[1..]), [true] + OpenFlags(lines[1..], false));
  }

  /** BlankFromRuns's step at a line that joins the buffer. */
  lemma BlankRunsAtJoin(lines: seq<string>, buf: seq<string>)
    requires |lines| > 0 && !IsBlank(lines[0]) && !(HasIndent(lines[0]) && |buf| > 0)
    requires BlankFrom(lines[1..], buf + [Strip(lines[0])])
             == Glue(Runs((buf + [Strip(lines[0])]) + Content(lines[1..]), Lead(|buf| + 1) + OpenFlags(lines[1..], false)))
    ensures BlankFrom(lines, buf) == Glue(Runs(buf + Content(lines), Lead(|buf|) + OpenFlags(lines, |buf| == 0)))
  {
    BlankFromAtJoin(lines, buf);
    NonBlankStep(lines, |buf| == 0);
    JoinFlags(lines, buf);
    RunsJoinBuffer(buf, Strip(lines[0]), Content(lines[1..]), OpenFlags(lines[1..], false));
  }

  /** A line that joins the buffer opens a run exactly when the buffer is empty. */
  lemma JoinFlags(lines: seq<string>, buf: seq<string>)
    requires |lines| > 0 && !IsBlank(lines[0]) && !(HasIndent(lines[0]) && |buf| > 0)
    ensures OpenFlags(lines, |buf| == 0) == [|buf| == 0] + OpenFlags(lines[1..], false)
  {
  }

  /**
   * `blank` mode from buffer `buf`: the buffer followed by the stripped
   * non-blank lines, cut into runs where the buffer is one run and a line
   * opens a new run when it is indented or follows a blank line (or the
   * start, when the buffer is empty).
   */
  lemma {:induction false} BlankFromRuns(lines: seq<string>, buf: seq<string>)
    ensures BlankFrom(lines, buf) == Glue(Runs(buf + Content(lines), Lead(|buf|) + OpenFlags(lines, |buf| == 0)))
  {
    if |lines| == 0 {
      assert buf + Content(lines) == buf;
      assert Lead(|buf|) + OpenFlags(lines, |buf| == 0) == Lead(|buf|);
      LeadFlush(buf);
    } else if IsBlank(lines[0]) {
      BlankFromRuns(lines[1..], []);
      assert [] + Content(lines[1..]) == Content(lines[1..]);
      assert Lead(0) + OpenFlags(lines[1..], true) == OpenFlags(lines[1..], true);
      BlankRunsAtBlank(lines, buf);
    } else if HasIndent(lines[0]) && |buf| > 0 {
      BlankFromRuns(lines[1..], [Strip(lines[0])]);
      BlankRunsAtIndent(lines, buf);
    } else {
      BlankFromRuns(lines[1..], buf + [Strip(lines[0])]);
      BlankRunsAtJoin(lines, buf);
    }
  }

  /**
   * The paragraphs of `blank` mode, and of `smart` mode unless it falls back
   * to punctuation, are the stripped non-blank lines cut into runs: a run
   * opens at every non-blank line that is indented or follows the start of
   * the chapter or a blank line, and every other line joins the paragraph
   * before it.
   */
  lemma BlankModeRuns(lines: seq<string>)
    ensures Bodies(lines, BlankMode) == Glue(Runs(Content(lines), OpenFlags(lines, true)))
    ensures SmartStrategy(lines) != ByPunctuation ==>
              Bodies(lines, SmartMode) == Glue(Runs(Content(lines), OpenFlags(lines, true)))
  {
    BlankFromRuns(lines, []);
    assert [] + Content(lines) == Content(lines);
    assert Lead(0) + OpenFlags(lines, true) == OpenFlags(lines, true);
    SmartMatchesBlank(lines);
  }

  // ----------------------------------------------------------------------
  // The punctuation fallback
  // ----------------------------------------------------------------------

  /** None of the parts ends in a terminator. */
  predicate Unterminated(parts: seq<string>) {
    forall k :: 0 <= k < |parts| ==> !EndsParagraph(parts[k])
  }

  /** A terminated last part cuts the punctuation layout there. */
  lemma BreaksAppend(a: seq<string>, b: seq<string>)
    requires |a| > 0 && EndsParagraph(a[|a| - 1])
    ensures Breaks(a + b) == Breaks(a) + Breaks(b)
  {
    var l := Breaks(a + b);
    var r := Breaks(a) + Breaks(b);
    forall k | 0 <= k < |l| ensures l[k] == r[k] {
      if 0 < k < |a| {
        assert (a + b)[k - 1] == a[k - 1];
      } else if k > |a| {
        assert (a + b)[k - 1] == b[k - |a| - 1];
      }
    }
  }

  /** Unterminated parts before a last one form a single punctuation run. */
  lemma BreaksWhole(buf: seq<string>, s: seq<string>)
    requires Unterminated(buf) && |s| <= 1
    ensures Glue(Runs(buf + s, Breaks(buf + s))) == Flush(buf + s)
  {
    var a := buf + s;
    if |a| > 0 {
      forall k | 1 <= k < |a| ensures !Breaks(a)[k] {
        assert a[k - 1] == buf[k - 1];
      }
      RunsWhole(a, Breaks(a));
      assert [a][1..] == [];
    }
  }

  /** The punctuation fallback at a line ending in a terminator. */
  lemma PunctuationFromAtEnd(lines: seq<string>, buf: seq<string>)
    requires |lines| > 0 && Strip(lines[0]) != "" && EndsParagraph(Strip(lines[0]))
    ensures PunctuationFrom(lines, buf) == [Concat(buf + [Strip(lines[0])])] + PunctuationFrom(lines[1..], [])
  {
  }

  /** The punctuation fallback at a non-blank line that does not end a paragraph. */
  lemma PunctuationFromAtJoin(lines: seq<string>, buf: seq<string>)
    requires |lines| > 0 && Strip(lines[0]) != "" && !EndsParagraph(Strip(lines[0]))
    ensures PunctuationFrom(lines, buf) == PunctuationFrom(lines[1..], buf + [Strip(lines[0])])
  {
  }

  /** A buffer closed by a terminated piece, followed by fresh runs. */
  lemma PunctRunsAfterBuffer(buf: seq<string>, s: string, c: seq<string>)
    requires Unterminated(buf) && EndsParagraph(s)
    ensures Glue(Runs((buf + [s]) + c, Breaks((buf + [s]) + c)))
            == [Concat(buf + [s])] + Glue(Runs(c, Breaks(c)))
  {
    var a := buf + [s];
    assert a[|a| - 1] == s;
    BreaksAppend(a, c);
    RunsAppend(a, Breaks(a), c, Breaks(c));
    GlueAppend(Runs(a, Breaks(a)), Runs(c, Breaks(c)));
    BreaksWhole(buf, [s]);
  }

  /** PunctuationFromRuns's step at a line ending in a terminator. */
  lemma PunctRunsAtEnd(lines: seq<string>, buf: seq<string>)
    requires |lines| > 0 && Strip(lines[0]) != "" && EndsParagraph(Strip(lines[0])) && Unterminated(buf)
    requires PunctuationFrom(lines[1..], []) == Glue(Runs(Content(lines[1..]), Breaks(Content(lines[1..]))))
    ensures PunctuationFrom(lines, buf) == Glue(Runs(buf + Content(lines), Breaks(buf + Content(lines))))
  {
    PunctuationFromAtEnd(lines, buf);
    NonBlankStep(lines, true);
    SnocAssoc(buf, Strip(lines[0]), Content(lines[1..]));
    PunctRunsAfterBuffer(buf, Strip(lines[0]), Content(lines[1..]));
  }

  /** PunctuationFromRuns's step at a non-blank line that does not end a paragraph. */
  lemma PunctRunsAtJoin(lines: seq<string>, buf: seq<string>)
    requires |lines| > 0 && Strip(lines[0]) != "" && !EndsParagraph(Strip(lines[0]))
    requires PunctuationFrom(lines[1..], buf + [Strip(lines[0])])
             == Glue(Runs((buf + [Strip(lines[0])]) + Content(lines[1..]), Breaks((buf + [Strip(lines[0])]) + Content(lines[1..]))))
    ensures PunctuationFrom(lines, buf) == Glue(Runs(buf + Content(lines), Breaks(buf + Content(lines))))
  {
    PunctuationFromAtJoin(lines, buf);
    NonBlankStep(lines, true);
    SnocAssoc(buf, Strip(lines[0]), Content(lines[1..]));
  }

  /**
   * The punctuation fallback from a buffer of unterminated lines: the
   * buffer followed by the stripped non-blank lines, cut after every piece
   * that ends in a terminator.
   */
  lemma {:induction false} PunctuationFromRuns(lines: seq<string>, buf: seq<string>)
    requires Unterminated(buf)
    ensures PunctuationFrom(lines, buf) == Glue(Runs(buf + Content(lines), Breaks(buf + Content(lines))))
  {
    if |lines| == 0 {
      AppendEmpty(buf);
      BreaksWhole(buf, []);
    } else if Strip(lines[0]) == "" {
      PunctuationFromRuns(lines[1..], buf);
      ContentCons(lines);
      assert Content(lines) == Content(lines[1..]);
    } else if EndsParagraph(Strip(lines[0])) {
      PunctuationFromRuns(lines[1..], []);
      assert [] + Content(lines[1..]) == Content(lines[1..]);
      PunctRunsAtEnd(lines, buf);
    } else {
      var s := Strip(lines[0]);
      assert Unterminated(buf + [s]) by {
        forall k | 0 <= k < |buf + [s]| ensures !EndsParagraph((buf + [s])[k]) {
          if k < |buf| {
            assert (buf + [s])[k] == buf[k];
          }
        }
      }
      PunctuationFromRuns(lines[1..], buf + [s]);
      PunctRunsAtJoin(lines, buf);
    }
  }

  /**
   * Under the punctuation fallback, the `smart` paragraphs are the stripped
   * non-blank lines cut into runs that close after every line ending in a
   * terminator.
   */
  lemma PunctuationModeRuns(lines: seq<string>)
    ensures PunctuationFrom(lines, []) == Glue(Runs(Content(lines), Breaks(Content(lines))))
    ensures SmartStrategy(lines) == ByPunctuation ==>
              Bodies(lines, SmartMode) == Glue(Runs(Content(lines), Breaks(Content(lines))))
  {
    PunctuationFromRuns(lines, []);
    assert [] + Content(lines) == Content(lines);
  }
}
