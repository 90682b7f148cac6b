# Paragraph and chapter inference of txt_to_epub

This project models the text-structuring engine of `txt_to_epub.py`. The engine turns a decoded plain-text novel into an ordered list of chapters, each with a title and a list of `<p>` paragraphs. It has four parts:

- **Line splitting.** `content.split("\n")` turns the text into lines (`Lines.SplitLines`).
- **Line classification.**
  - A line is blank when its stripped form is empty.
  - `has_indent` (`Lines.HasIndent`) decides whether a line starts with indentation. Indentation is a full-width space (U+3000), two ASCII spaces, or a tab.
  - `remove_indent` (`Lines.RemoveIndent`) removes the leading full-width spaces, then the leading spaces and tabs.
- **Paragraph segmentation.** `process_paragraphs` (`Paragraphs.ProcessParagraphs`) has three modes:
  - `line`: one paragraph per non-blank line.
  - `blank`: paragraphs are separated by blank lines and by indented lines.
  - `smart`: picks one strategy per chapter, in priority order:
    - indentation, when any non-blank line is indented;
    - `blank` mode, when there is a blank line;
    - otherwise a punctuation fallback, which closes a paragraph after every line ending in `。！？.!?"'」》)）`.

  Each paragraph is rendered as `<p>` + marker + body + `</p>`. The marker is two full-width spaces under force-indent, and empty otherwise.
- **Chapter splitting.** The main loop (`Chapters.SplitChapters`, and `Chapters.SplitChaptersLoop` in the source's imperative shape) walks the lines:
  - a blank line becomes an empty placeholder;
  - a line whose stripped form passes the heading test closes the chapter in progress and becomes the next title;
  - any other line is kept as is.

  A chapter whose segmentation is empty is dropped. The first title is `前言`.

The modules follow that structure:

- `Strings`: whitespace, `strip`, `lstrip`, `join`.
- `Lines`: splitting and classification.
- `Grouping`: cutting a sequence into runs of consecutive elements, and flattening runs back.
- `Paragraphs`: the segmenters and rendering.
- `ParagraphProperties`: the lemmas about the segmenters.
- `ParagraphBreaks`: where each segmenter places its paragraph breaks.
- `Chapters`: the splitter.
- `ChapterProperties`: the lemmas about the splitter.
- `ChapterSections`: the splitter compared with the book cut into sections at its headings.

Each segmenter is a recursive function that threads the paragraph buffer (`current_para`) and returns paragraph bodies. `ProcessParagraphs` then renders every body. `Unrender` is the inverse of rendering: it recovers a body from its markup. Independent reference definitions state what the results must be:

- `Paragraphs.Content`: the stripped non-blank lines, in order.
- `Grouping.Runs` with `Paragraphs.OpenFlags`: the stripped non-blank lines cut into runs. A run opens at a line that is indented or that follows the start of the chapter or a blank line. Each run glued together is one `blank` paragraph.
- `Grouping.Runs` with `Paragraphs.Breaks`: the same lines cut after every line that ends in a terminator. This gives the punctuation paragraphs.
- `Chapters.BodyLines`: the non-heading lines of a book.
- `Chapters.Sections`: the book cut at every heading line. The first section is titled `前言`, and every later section is titled by its stripped heading. `ChapterSections.SplitBySections` shows that the splitter closes exactly one chapter per section, dropping a section that has no non-blank line.

## Model

| member | source | states |
|---|---|---|
| Strings.Strip | txt_to_epub.py:197 | `line.strip()` has no whitespace at either end and is empty exactly when the line is all whitespace |
| Strings.StripInfix | txt_to_epub.py:197 | `line.strip()` is a contiguous piece of the line with only whitespace before it and only whitespace after it |
| Strings.StripIgnoresWsPrefix | txt_to_epub.py:197 | deleting leading whitespace never changes what `strip` returns |
| Strings.StripIdempotent | txt_to_epub.py:197 | stripping an already stripped text changes nothing |
| Strings.LStrip | txt_to_epub.py:163-165 | `lstrip(chars)` removes exactly the longest prefix made of `chars`, and nothing else |
| Strings.ConcatStripped | txt_to_epub.py:202 | `''.join` of non-empty stripped pieces is a stripped string, non-empty when there is a piece |
| Lines.SplitLines | txt_to_epub.py:137 | `split("\n")` yields at least one piece; no piece holds a line break; joining the pieces with line breaks gives back the text |
| Lines.SplitJoin | txt_to_epub.py:137 | splitting newline-free lines joined by line breaks gives those lines back |
| Lines.IndentMarks | txt_to_epub.py:145-155 | `has_indent` holds exactly when the line starts with U+3000, with two spaces, or with a tab; a single leading space is not indentation |
| Lines.RemoveIndent | txt_to_epub.py:158-166 | the result is never longer than the line, is strictly shorter for an indented line, and never starts with a space or a tab |
| Lines.RemoveIndentDropsWhitespace | txt_to_epub.py:158-166 | `remove_indent` only deletes a prefix of the line, and that prefix is whitespace |
| Lines.StripRemoveIndent | txt_to_epub.py:187 | `remove_indent(line).strip()` equals `line.strip()`, so removing indentation loses no text |
| Paragraphs.LineBodies | txt_to_epub.py:176-191 | `line` mode yields exactly one paragraph per non-blank line |
| Paragraphs.Flush | txt_to_epub.py:201-203 | a non-empty buffer becomes exactly one paragraph with the buffer's text; an empty buffer becomes none |
| Paragraphs.UnrenderRender | txt_to_epub.py:188 | the body of `f"<p>{indent_str}{body}</p>"` is recovered from the markup |
| Paragraphs.ProcessParagraphs | txt_to_epub.py:169-291 | one rendered paragraph per body, in order; each opens with `<p>` and the marker, closes with `</p>`, and gives back its body |
| ParagraphProperties.LineModeIsContent | txt_to_epub.py:176-191 | `line` mode yields, in order, the stripped form of every non-blank line, whether or not the line is indented |
| ParagraphProperties.LineModeParagraphs | txt_to_epub.py:176-191 | `line` mode yields as many paragraphs as there are non-blank lines; the i-th is `<p>` + marker + the i-th stripped non-blank line + `</p>` |
| ParagraphProperties.BlankFromText | txt_to_epub.py:193-223 | the `blank` paragraphs glued together are the pending buffer followed by the stripped non-blank lines |
| ParagraphProperties.BlankFromStripped | txt_to_epub.py:193-223 | every `blank` paragraph is non-empty and stripped |
| ParagraphProperties.BlankFromCount | txt_to_epub.py:193-223 | `blank` mode opens one paragraph per non-blank line that is indented or follows a blank line or the start, plus one for a pending buffer |
| ParagraphProperties.IndentFromIsBlankFrom | txt_to_epub.py:233-263 | the indentation branch of `smart` yields exactly what `blank` mode yields |
| ParagraphProperties.SmartMatchesBlank | txt_to_epub.py:225-267 | unless `smart` falls back to punctuation, it yields the `blank` result; it falls back exactly when every line is non-blank and unindented |
| ParagraphProperties.PunctuationFromText | txt_to_epub.py:268-289 | the punctuation paragraphs glued together are the pending buffer followed by the stripped non-blank lines |
| ParagraphProperties.PunctuationFromStripped | txt_to_epub.py:268-289 | every punctuation paragraph is non-empty and stripped |
| ParagraphProperties.PunctuationFromEnds | txt_to_epub.py:276-285 | every punctuation paragraph except possibly the last ends in a terminator |
| ParagraphProperties.PunctuationFromCount | txt_to_epub.py:268-289 | the fallback yields one paragraph per terminated line, plus at most one more |
| ParagraphProperties.PunctuationFromBound | txt_to_epub.py:268-289 | the fallback never yields more paragraphs than non-blank lines, plus one for a pending buffer |
| ParagraphProperties.SmartPunctuationEnds | txt_to_epub.py:268-289 | under the fallback, every `smart` paragraph but the last ends in a terminator, and the count is the number of terminated lines plus at most one |
| ParagraphBreaks.BlankFromRuns | txt_to_epub.py:193-223 | from any pending buffer, the `blank` paragraphs are the buffer and the stripped non-blank lines cut into runs: a new run opens at an indented line and at the first non-blank line after a blank line; every other line joins the paragraph in progress |
| ParagraphBreaks.BlankModeRuns | txt_to_epub.py:193-267 | `blank` mode, and `smart` mode whenever it does not fall back, yield one paragraph per run of the stripped non-blank lines, with runs opening at the first line, after a blank line, and at an indented line |
| ParagraphBreaks.PunctuationFromRuns | txt_to_epub.py:268-289 | from an unterminated pending buffer, the punctuation paragraphs are the buffer and the stripped non-blank lines cut right after every piece that ends in a terminator |
| ParagraphBreaks.PunctuationModeRuns | txt_to_epub.py:225-289 | under the fallback, `smart` yields one paragraph per run of the stripped non-blank lines, a run ending exactly at a line that ends in a terminator |
| ParagraphProperties.BodiesText | txt_to_epub.py:169-291 | in every mode, the paragraph bodies glued together equal the stripped non-blank lines glued together |
| ParagraphProperties.BodiesStripped | txt_to_epub.py:169-291 | in every mode, every paragraph body is non-empty and stripped |
| ParagraphProperties.BodiesCount | txt_to_epub.py:169-291 | `line` mode yields one paragraph per non-blank line; `blank` mode yields one per paragraph start; no mode yields more paragraphs than non-blank lines |
| ParagraphProperties.BodiesEmpty | txt_to_epub.py:169-291 | a mode yields no paragraph exactly when every line is blank |
| ParagraphProperties.SmartReselects | txt_to_epub.py:228-231 | finished paragraph bodies are never blank or indented, so `smart` would treat them with the punctuation fallback |
| ParagraphProperties.ProcessParagraphsText | txt_to_epub.py:169-291 | the bodies of the rendered paragraphs glue to the text of the non-blank lines; no body is empty; under force-indent every paragraph opens with `<p>　　` |
| Chapters.Entries | txt_to_epub.py:311-312 | one `(title, markup)` entry per chapter, in chapter order, carrying that chapter's title |
| Chapters.Finalise | txt_to_epub.py:305-312 | closing a chapter yields at most one chapter, under the current title and with a paragraph; an empty line buffer yields none |
| Chapters.SplitChaptersLoop | txt_to_epub.py:294-325 | the imperative loop computes the same chapters as the recursive splitter |
| ChapterProperties.FinaliseShape | txt_to_epub.py:305-312 | closing a chapter keeps it exactly when its lines include a non-blank one; a kept chapter carries the current title and is well formed |
| ChapterProperties.FinaliseText | txt_to_epub.py:319-325 | a closed chapter carries the text of its non-blank lines |
| ChapterProperties.SplitTitlesSelection | txt_to_epub.py:294-325 | the titles are `前言` followed by trimmed heading lines, in book order, as a selection of `[前言] + headings`; there are at most one more chapters than headings; every other title is non-empty, trimmed and a heading |
| ChapterSections.SplitTitles | txt_to_epub.py:294-325 | the chapter titles are exactly the titles of the sections holding a non-blank line, in order; in particular they are a selection of `[前言] + headings` |
| ChapterSections.SplitFromPrefix | txt_to_epub.py:296-317 | lines without a heading only extend the line buffer: blank ones as `""`, the rest unchanged |
| ChapterSections.SplitFromAtHeading | txt_to_epub.py:302-315 | a heading line closes the chapter in progress, with every line gathered before it, and starts a new chapter titled by the stripped heading with an empty buffer |
| ChapterSections.SplitBySections | txt_to_epub.py:294-325 | the chapters are the book's sections closed one after another: each section between two headings becomes at most one chapter, under its heading |
| ChapterSections.SectionsPartition | txt_to_epub.py:294-325 | the sections are titled `前言` and then each stripped heading, one more section than headings; their bodies together are the non-heading lines in order, and no body holds a heading line |
| ChapterSections.NoHeadingsOneChapter | txt_to_epub.py:294-325 | a book without headings is a single `前言` chapter holding all its text, or no chapter when the book is blank |
| ChapterProperties.SplitWellFormed | txt_to_epub.py:294-325 | every chapter has a paragraph; every paragraph body is non-empty; under force-indent every paragraph opens with `<p>　　` |
| ChapterProperties.SplitText | txt_to_epub.py:294-325 | the chapter bodies together are the stripped non-heading lines, in order, so no heading line reaches a body and no text is lost |
| ChapterProperties.DefaultHeadingShape | txt_to_epub.py:18 | a text passes `^第.+章.*$` exactly when it is 第, a non-empty newline-free text, 章, a newline-free text, and at most one final line break |
| ChapterProperties.EntriesSplit | txt_to_epub.py:311-312 | an entry carries its chapter's title, and when no paragraph holds a line break, splitting the entry's text at line breaks gives back the chapter's paragraphs |
| ChapterProperties.DefaultHeadingExamples | txt_to_epub.py:18 | under `^第.+章.*$`, `第一章 开始` is a heading while `前言`, `第章` and `第三回` are not |

## Left out

- Reading the file: UTF-8, then GBK, then exit (txt_to_epub.py:124-134). This is I/O. The model starts from the decoded text.
- EPUB packaging (txt_to_epub.py:47-53, 93-121, 327-366): metadata, CSS, the chapter XHTML template, the table of contents, spine and `write_epub`. These are calls into `ebooklib` with no decision logic.
- The cover image (txt_to_epub.py:56-90). This is file I/O and image-format sniffing.
- Command-line parsing in `main` (txt_to_epub.py:370-411).
- The regular-expression engine (txt_to_epub.py:140, 303). The splitter takes the heading test as a parameter, `Config.isHeading`, applied to the stripped line. `Chapters.DefaultHeading` spells out what the default `^第.+章.*$` accepts under `re.match`.
- Unknown `paragraph_mode` strings: for these the source returns no paragraph. The mode is a three-valued datatype here, and the command line only offers these three values.
- Strings.Strip: whitespace is the fixed set space, tab, LF, CR, VT, FF and U+3000. Python's `str.strip` also removes the other Unicode whitespace characters, which the model does not list.
- Rendering order: the segmenters collect bodies and `Paragraphs.ProcessParagraphs` adds the markup afterwards. The source renders at each flush, which yields the same list.
- Chapters.Entries: the join is shown reversible only for paragraphs without a line break (`ChapterProperties.EntriesSplit`). A paragraph never holds one, because `SplitLines` removes every line break before segmentation, but that link is not stated as a lemma.
