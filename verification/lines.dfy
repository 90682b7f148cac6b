/**
 * The line classifier: whether a line is blank, whether it is indented, and
 * how its indentation is removed (`has_indent` and `remove_indent` in
 * txt_to_epub.py).
 */
module Lines {
  import opened Strings

  /** A line whose stripped form is empty (`not line.strip()`). */
  predicate IsBlank(line: string) {
    Strip(line) == ""
  }

  /**
   * `has_indent`: a line is indented when it starts with a full-width space,
   * with two ASCII spaces, or with a tab.
   */
  predicate HasIndent(line: string) {
    if line == "" then false
    else if StartsWith(line, [FullWidthSpace]) then true
    else StartsWith(line, "  ") || StartsWith(line, "\t")
  }

  /** The characters `remove_indent` strips after the full-width spaces. */
  const SpaceOrTab: set<char> := {' ', '\t'}

  /**
   * `remove_indent`: `lstrip` of full-width spaces, then of spaces and tabs.
   * An indented line always loses at least one character, and the result
   * never starts with a space or a tab; RemoveIndentDropsWhitespace shows
   * that only leading whitespace is removed.
   */
  function RemoveIndent(line: string): (r: string)
    ensures |r| <= |line|
    ensures HasIndent(line) ==> |r| < |line|
    ensures r == "" || (r[0] != ' ' && r[0] != '\t')
  {
    if line == "" then ""
    else
      IndentShrinks(line);
      LStrip(LStrip(line, {FullWidthSpace}), SpaceOrTab)
  }

  /** RemoveIndent only removes a prefix of `line`, and that prefix is whitespace. */
  lemma RemoveIndentDropsWhitespace(line: string)
    ensures RemoveIndent(line) == line[|line| - |RemoveIndent(line)|..]
    ensures forall i :: 0 <= i < |line| - |RemoveIndent(line)| ==> IsWs(line[i])
  {
    if line != "" {
      RemoveIndentSuffix(line);
      RemoveIndentPrefixWs(line);
    }
  }

  /** The two `lstrip` calls leave a suffix of the line. */
  lemma RemoveIndentSuffix(line: string)
    ensures var r := LStrip(LStrip(line, {FullWidthSpace}), SpaceOrTab); r == line[|line| - |r|..]
  {
    var t := LStrip(line, {FullWidthSpace});
    var r := LStrip(t, SpaceOrTab);
    assert line[|line| - |t|..][|t| - |r|..] == line[|line| - |r|..];
  }

  /** What the two `lstrip` calls remove is whitespace. */
  lemma RemoveIndentPrefixWs(line: string)
    ensures var r := LStrip(LStrip(line, {FullWidthSpace}), SpaceOrTab);
            forall i :: 0 <= i < |line| - |r| ==> IsWs(line[i])
  {
    var t := LStrip(line, {FullWidthSpace});
    var r := LStrip(t, SpaceOrTab);
    var k := |line| - |t|;
    forall i | 0 <= i < |line| - |r| ensures IsWs(line[i]) {
      if i >= k {
        assert line[i] == t[i - k];
      }
    }
  }

  /** The two `lstrip` calls remove at least the indentation mark of an indented line. */
  lemma IndentShrinks(line: string)
    ensures HasIndent(line) ==> |LStrip(LStrip(line, {FullWidthSpace}), SpaceOrTab)| < |line|
  {
    var t := LStrip(line, {FullWidthSpace});
    var r := LStrip(t, SpaceOrTab);
    if HasIndent(line) && |r| == |line| {
      assert t == line && r == line;
      IndentMarks(line);
      assert false;
    }
  }

  /**
   * Indentation is exactly one of the three leading marks; in particular a
   * single leading space is not indentation.
   */
  lemma IndentMarks(line: string)
    ensures HasIndent(line) <==>
              |line| >= 1 && (line[0] == FullWidthSpace || line[0] == '\t' || (|line| >= 2 && line[0] == ' ' && line[1] == ' '))
    ensures |line| >= 1 && line[0] == ' ' && (|line| == 1 || line[1] != ' ') ==> !HasIndent(line)
  {
    if |line| >= 2 && line[0] == ' ' && line[1] == ' ' {
      assert line[..2] == "  ";
    }
    if |line| >= 1 && line[0] == '\t' {
      assert line[..1] == "\t";
    }
    if |line| >= 1 && line[0] == FullWidthSpace {
      assert line[..1] == [FullWidthSpace];
    }
  }

  /** An indented line starts with whitespace, so it is blank or its strip loses that indentation. */
  lemma IndentIsWhitespace(line: string)
    requires HasIndent(line)
    ensures IsWs(line[0])
  {
    IndentMarks(line);
  }

  /**
   * Removing the indentation and then stripping gives the same text as
   * stripping the original line: indentation removal loses no content.
   */
  lemma StripRemoveIndent(line: string)
    ensures Strip(RemoveIndent(line)) == Strip(line)
  {
    var k := |line| - |RemoveIndent(line)|;
    RemoveIndentDropsWhitespace(line);
    SplitAt(line, k);
    StripIgnoresWsPrefix(line[..k], line[k..]);
  }

  /** A text is its prefix of length `k` followed by the rest. */
  lemma SplitAt(s: string, k: nat)
    requires k <= |s|
    ensures s == s[..k] + s[k..]
  {
  }

  // ----------------------------------------------------------------------
  // Splitting the decoded text into lines
  // ----------------------------------------------------------------------

  /** The index of the first line break in `s`. */
  function NewlineIndex(s: string): (i: nat)
    requires !NoNewline(s)
    ensures i < |s| && s[i] == '\n' && NoNewline(s[..i])
  {
    if s[0] == '\n' then 0
    else
      assert !NoNewline(s[1..]) by {
        var k :| 0 <= k < |s| && s[k] == '\n';
        assert s[1..][k - 1] == '\n';
      }
      var i := NewlineIndex(s[1..]);
      assert s[..i + 1] == [s[0]] + s[1..][..i];
      i + 1
  }

  /**
   * `content.split("\n")`: the pieces between line breaks. There is always at
   * least one piece, no piece holds a line break, and joining the pieces with
   * line breaks gives back the text.
   */
  function SplitLines(s: string): (r: seq<string>)
    ensures |r| >= 1
    ensures forall k :: 0 <= k < |r| ==> NoNewline(r[k])
    ensures Join("\n", r) == s
    decreases |s|
  {
    if NoNewline(s) then [s]
    else
      var i := NewlineIndex(s);
      var rest := SplitLines(s[i + 1..]);
      assert s == s[..i] + "\n" + s[i + 1..];
      assert ([s[..i]] + rest)[1..] == rest;
      [s[..i]] + rest
  }

  /** Splitting lines joined by line breaks gives the lines back. */
  lemma {:induction false} SplitJoin(parts: seq<string>)
    requires |parts| >= 1
    requires forall k :: 0 <= k < |parts| ==> NoNewline(parts[k])
    ensures SplitLines(Join("\n", parts)) == parts
  {
    if |parts| == 1 {
      assert Join("\n", parts) == parts[0];
    } else {
      var rest := Join("\n", parts[1..]);
      var s := Join("\n", parts);
      assert s == parts[0] + "\n" + rest;
      assert s[|parts[0]|] == '\n';
      assert s[..|parts[0]|] == parts[0];
      var i := NewlineIndex(s);
      assert i == |parts[0]|;
      assert s[i + 1..] == rest;
      SplitJoin(parts[1..]);
    }
  }
}
