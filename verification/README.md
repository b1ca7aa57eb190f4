# Markdown chunker and PDF-to-Markdown helpers, modelled in Dafny

The physics chatbot prepares textbook content for retrieval in two steps.
First, a PDF is converted to Markdown. Second, the Markdown is cut into
bounded, heading-labelled chunks. This project models both steps in Dafny.

The main model is `MarkdownChunker`:

- `extract_heading_structure` finds the ATX headings with the multi-line
  pattern `^(#{1,6})\s+(.+)$` and closes the list with a level-0 `END` marker.
- `create_semantic_chunks` cuts the document between consecutive markers into
  sections, each with a breadcrumb path and a `len // 4` token estimate. A
  section within `max_chunk_size` becomes one chunk with a content id; a
  larger one goes to `_split_large_chunk`.
- `_split_large_chunk` splits the section at blank lines (`\n\s*\n`) and
  packs the paragraphs greedily into sub-chunks. Each new sub-chunk is seeded
  with `_get_overlap_text` of the previous one.
- `_get_overlap_text` prefers to start at the last formula match near the
  end; otherwise it takes the last `4 * overlap_size` characters.
- `is_formula` and `estimate_tokens` support the above.

The second model covers the pure parts of `PdfToMarkdownConverter`:

- `is_heading` and `format_formula`;
- the line, table and page rendering inside `convert`, with `prev_text`
  threaded through every line of every page.

Modules, following the program's structure:

| module | file | models |
|---|---|---|
| `Text` | text.dfy | `str.strip`, `str.join`, `str.split("\n")`, `str(n)`, whitespace as `str.isspace` |
| `Chunks` | chunks.dfy | the configuration, section and chunk records, `estimate_tokens` |
| `Headings` | headings.dfy | the heading regex as a scanner, `finditer`, `extract_heading_structure` |
| `Formula` | formula.dfy | `is_formula` and the formula `finditer` used by the overlap |
| `Overlap` | overlap.dfy | `_get_overlap_text`, Python's negative slicing |
| `Paragraphs` | paragraphs.dfy | `re.split(r'\n\s*\n', ...)` |
| `Splitter` | splitter.dfy | `_split_large_chunk` as a left fold with an explicit accumulator |
| `Chunker` | chunker.dfy | `create_semantic_chunks` |
| `PdfHeading` | pdf_heading.dfy | `is_heading`, `format_formula`, the unit-test vectors |
| `PdfRender` | pdf_render.dfy | line, table and page rendering of `convert` |

The regular expressions are written out as scanners with Python's matching
order:

- greedy `\s+` that backs off;
- lazy `.*?` stopping at the first closing delimiter;
- `finditer` resuming after each match.

Because `\s` also matches a newline, a heading line such as `## ` followed by
a newline takes its title from the next non-blank line. That next line is then
not a heading of its own. The model keeps this behaviour.

The model follows the code as written:

- No "Document Start" marker is inserted. Text before the first heading is in
  no chunk, and a document without headings gives no chunks.
- Empty sections are not dropped. There is no "Root" path, no small-chunk
  merge pass, and no sentence or fixed-width fallback.
- The paragraph split does not avoid formula interiors.
- Path is the titles of all earlier headings, not only of the enclosing ones.
- The overlap's formula branch compares the match end against
  `len(text) - overlap_size`, in characters, not `4 * overlap_size`. No
  paragraph or sentence trimming is applied to the overlap.
- With `overlap_size == 0` the overlap is the whole text, because `text[-0:]`
  is `text[0:]`.
- Sub-chunks carry the chunk type `sub_chunk`. Chunks kept whole carry no
  type, which the model records as `HeadingSection`.

## Model

| member | source | states |
|---|---|---|
| Chunks.EstimateTokens | chunking/markdown_chunker.py:57-62 | the estimate `n` satisfies `4n <= len < 4n + 4`, that is, one token per four characters rounded down |
| Chunks.EstimateSuperadditive | chunking/markdown_chunker.py:57-62 | estimating two texts separately never gives more than estimating their concatenation |
| Formula.IsFormulaIff | chunking/markdown_chunker.py:42-55 | `is_formula` holds exactly when the text has at least two `$`, or a closed `equation` or `align` environment |
| Formula.DisplayIsInline | chunking/markdown_chunker.py:45-47 | any `$$...$$` match implies an inline `$...$` match, so the display pattern never decides the result on its own |
| Formula.MatchAt | chunking/markdown_chunker.py:211 | a match of the three-way alternation at `i` starts at `i` and ends inside the text, after its start |
| Formula.Scan | chunking/markdown_chunker.py:211 | the `finditer` matches lie in the text and are ordered without overlap, each starting at or after the previous end |
| Formula.ScanSound | chunking/markdown_chunker.py:211 | every reported span is exactly the pattern's match at its own start |
| Formula.ScanEmpty | chunking/markdown_chunker.py:211-212 | an empty match list from `j` means the pattern matches at no position from `j` on |
| Formula.LastMatch | chunking/markdown_chunker.py:212-214 | `formula_matches[-1]` is one of the matches and ends no earlier than any of them; it is absent exactly when the list is empty |
| Formula.FormulaHasMatch | chunking/markdown_chunker.py:209-213 | whenever `is_formula` holds the match list is not empty, so the `if formula_matches` test never fails after it |
| Formula.FormulaStart | chunking/markdown_chunker.py:209-211 | whenever `is_formula` holds, some position in the text starts a match of the line-211 pattern |
| Overlap.SliceFrom | chunking/markdown_chunker.py:223 | Python's `s[k:]` for any integer `k` is a suffix of `s`, with the length Python gives for non-negative and negative `k` |
| Overlap.GetOverlapText | chunking/markdown_chunker.py:206-223 | the overlap is always a suffix of the text. When `is_formula` holds and the last formula match ends after `len - overlap_size`, it starts exactly at that match and holds it whole. Otherwise it is the last `4 * overlap_size` characters, or the whole text when shorter. A zero `overlap_size` gives the whole text and a negative one drops characters from the front. A non-empty text with `overlap_size >= 0` never gives an empty overlap |
| Headings.HashRun | chunking/markdown_chunker.py:67 | the run of `#` from `i`: every character in it is `#`, and the next character is not |
| Headings.MatchAt | chunking/markdown_chunker.py:67 | a heading match at `p` starts at `p`, has 1 to 6 marks, and its title starts after the marks and ends inside the text |
| Headings.MatchAtShape | chunking/markdown_chunker.py:67 | a match is the whole run of marks, whitespace possibly over several lines, and a title on one line ending at a newline or the end. Marks followed by whitespace fail only when that whitespace runs to the end and holds nothing but newlines after its first character |
| Headings.Scan | chunking/markdown_chunker.py:71 | the `finditer` matches are well formed and lie after the start position; each ends before the next begins |
| Headings.ScanSound | chunking/markdown_chunker.py:71-74 | every reported match is the pattern's match at a line start |
| Headings.ScanComplete | chunking/markdown_chunker.py:71 | every line start where the pattern matches lies inside some reported match, so no heading is skipped except inside another match |
| Headings.ExtractHeadingStructure | chunking/markdown_chunker.py:64-88 | the list ends with exactly one `END` marker of level 0 at `len(content)`. There is one other marker per `finditer` match, in order. Each is built from its match: the level is the number of `#` marks at its position, the title is group 2 stripped, and the position is the match start. Every such marker has level 1 to 6 and sits at a `#` at a matching line start. Positions strictly increase, and no start marker is inserted |
| Headings.NoHeadingsIff | chunking/markdown_chunker.py:64-88 | the list holds no real heading exactly when the pattern matches at no line start |
| Paragraphs.SeparatorEnd | chunking/markdown_chunker.py:155 | a `\n\s*\n` match at `i` spans at least two characters and ends inside the text |
| Paragraphs.Split | chunking/markdown_chunker.py:155 | `re.split` gives at least one piece, and no piece contains a blank line |
| Paragraphs.SplitFromRebuilds | chunking/markdown_chunker.py:155 | putting the separators back between the pieces reproduces the text from the scan start |
| Paragraphs.SplitFromSeparators | chunking/markdown_chunker.py:155 | every separator is newline, whitespace, newline |
| Paragraphs.SplitFromPieces | chunking/markdown_chunker.py:155 | no piece holds two newlines with only whitespace between them |
| Paragraphs.SplitRebuilds | chunking/markdown_chunker.py:155 | the pieces of the split, interleaved with the separators, give back the whole text, and every separator is a pattern match |
| Paragraphs.FirstPieceKeepsStart | chunking/markdown_chunker.py:155 | a text not starting with a newline keeps its first character in the first piece |
| Splitter.AssembleEmpty | chunking/markdown_chunker.py:185-192 | an assembled sub-chunk text is empty exactly when its seed and all its paragraphs are empty |
| Splitter.AssembleTokensBound | chunking/markdown_chunker.py:181-189 | the running token count never exceeds the estimate of the text it stands for, because it ignores the `"\n\n"` joins |
| Splitter.StepConsumes | chunking/markdown_chunker.py:161-189 | one loop iteration records the paragraph it reads, whichever branch it takes |
| Splitter.FoldConsumes | chunking/markdown_chunker.py:161-189 | the paragraphs recorded in closed sub-chunks and in the open buffer are exactly the ones read, in order |
| Splitter.FoldKeepsTrace | chunking/markdown_chunker.py:161-189 | the loop keeps its invariant. Each closed sub-chunk is its seed and paragraphs, joined as the loop joins them, within the limit or a lone paragraph. Consecutive sub-chunks are linked by the overlap and by the paragraph that did not fit |
| Splitter.FinishFacts | chunking/markdown_chunker.py:191-204 | closing the last buffer only when it is non-empty keeps the invariant. Only trailing empty paragraphs are left out of the recorded ones |
| Splitter.Pack | chunking/markdown_chunker.py:157-202 | sub-chunks are non-empty. Each is its seed followed by its paragraphs, joined by `"\n\n"` after the first. Each paragraph after the first was added because it fit. A sub-chunk over the limit holds one paragraph after its seed. The first sub-chunk has no seed; each later one starts with the overlap of the previous one and began because its first paragraph did not fit. Recorded paragraphs are the input in order. With `overlap_size >= 0` and at least one sub-chunk, they are all of the input, trailing empty paragraphs included, because those join the last sub-chunk. Token counts never exceed the content's estimate |
| Splitter.PackKeepsAll | chunking/markdown_chunker.py:180-192 | with `overlap_size >= 0` every later seed is the non-empty overlap of a non-empty sub-chunk. The last buffer is therefore never empty once a sub-chunk is closed, and every paragraph read is recorded in some sub-chunk |
| Splitter.PackKeepsFirst | chunking/markdown_chunker.py:161-188 | when the first paragraph is non-empty, there is a first sub-chunk and it begins with that paragraph |
| Splitter.SplitLargeChunk | chunking/markdown_chunker.py:146-204 | one sub-chunk per packed draft with its content and count. Each sub-chunk is non-empty, copies the section's heading, level and path, has its content id and type `sub_chunk`, and has a count no larger than its content's estimate |
| Splitter.SplitNeverEmpty | chunking/markdown_chunker.py:146-204 | a section not starting with a newline yields at least one sub-chunk |
| Chunker.SectionAt | chunking/markdown_chunker.py:102-124 | section `i` is `content[pos_i:pos_{i+1}]` and starts with `#`. It carries the heading's own title, never "Document Start", along with the heading's level, breadcrumb and token estimate |
| Chunker.SectionsOf | chunking/markdown_chunker.py:102-126 | one section per marker pair, in order |
| Chunker.Sections | chunking/markdown_chunker.py:97-126 | the heading list meets the ordering the slicing needs, and there is one section per real heading |
| Chunker.SectionsWellFormed | chunking/markdown_chunker.py:107-123 | every section is non-empty, starts with `#`, has a level of 1 to 6 and carries its own token estimate |
| Chunker.PathChain | chunking/markdown_chunker.py:111-122 | the first path is the first title; each later path is the previous path, `" > "`, and the new title |
| Chunker.SectionsTile | chunking/markdown_chunker.py:102-109 | the sections, concatenated, are the document from its first heading to the end; without headings there are none |
| Chunker.Expand | chunking/markdown_chunker.py:130-138 | a section within the limit becomes exactly one chunk: the section with its content id. A larger one becomes non-empty sub-chunks of type `sub_chunk`. Every chunk keeps the section's heading, level and path |
| Chunker.ExpandAll | chunking/markdown_chunker.py:129-140 | every chunk has its content id and a count no larger than its estimate. A chunk kept whole is within the limit, and each chunk carries the labels of one of the sections |
| Chunker.ExpandAllConcat | chunking/markdown_chunker.py:129-140 | sections are replaced in place: the chunks of two runs of sections are the chunks of each, in the same order |
| Chunker.CreateSemanticChunks | chunking/markdown_chunker.py:90-140 | every chunk has its content id, a level of 1 to 6, non-empty content and a count no larger than its estimate. A whole chunk is within the limit. A document without headings yields no chunks |
| Chunker.ChunksNonEmpty | chunking/markdown_chunker.py:129-140 | chunk contents are never empty and levels stay those of headings |
| Chunker.NoSplitTiles | chunking/markdown_chunker.py:97-140 | when no section is over the limit, there is one chunk per heading and the chunks tile the document from the first heading to the end |
| Chunker.EveryHeadingChunked | chunking/markdown_chunker.py:128-140 | there are at least as many chunks as headings |
| Text.Strip | pdf2md/pdf_to_md.py:12 | `strip()` returns a slice of the text with no whitespace at either end, and only whitespace is removed around it |
| Text.StripIdempotent | pdf2md/pdf_to_md.py:44 | stripping an already stripped line changes nothing |
| Text.StripEmptyIff | pdf2md/pdf_to_md.py:13 | the stripped text is empty exactly when the text is all whitespace |
| Text.SplitOn | pdf2md/pdf_to_md.py:38 | `split("\n")` gives at least one part, and no part contains the separator |
| Text.SplitOnJoin | pdf2md/pdf_to_md.py:38 | joining the parts of `split(c)` with `c` gives back the text |
| Text.NatToString | pdf2md/pdf_to_md.py:42 | `str(n)` is a non-empty string of decimal digits that denotes `n`, with no leading zero unless it is `"0"` |
| Text.NatToStringInjective | pdf2md/pdf_to_md.py:42 | different page numbers give different strings |
| PdfHeading.IsHeading | pdf2md/pdf_to_md.py:11-17 | a line is a heading exactly when its stripped text is 1 to 100 characters long and is either upper case, or shorter than 50 characters after a blank previous line. In particular, a blank line or one over 100 characters never is. A non-upper-case line of 50 or more characters never is, whatever precedes it |
| PdfHeading.HeadingAfterText | pdf2md/pdf_to_md.py:15-17 | after a line with a visible character, a line is a heading exactly when it is upper case and 1 to 100 characters long |
| PdfHeading.SearchFormula | pdf2md/pdf_to_md.py:20-21 | `found` holds exactly when one of the three patterns matches somewhere, which is all the source uses of `re.search`. `at` is the first anchor of a match: a caret, a slash or the `s` of `sqrt(`. It is not the start of the regex match |
| PdfHeading.FormatFormula | pdf2md/pdf_to_md.py:19-23 | the line wrapped in `$` when a pattern matches, unchanged otherwise |
| PdfHeading.FormatFormulaInverse | pdf2md/pdf_to_md.py:19-23 | the result is the line itself, or the line between two `$` exactly when a pattern matches, so the line can be read back |
| PdfHeading.HeadingVectorUpper | tests/test_converter.py:47 | `"INTRODUCTION"` after an empty line is a heading |
| PdfHeading.HeadingVectorShort | tests/test_converter.py:48 | `"Short Title"` after an empty line is a heading |
| PdfHeading.HeadingVectorLong | tests/test_converter.py:49 | the 93-character test sentence is not a heading |
| PdfHeading.HeadingVectorNormal | tests/test_converter.py:50 | `"Normal text"` after `"Previous text"` is not a heading |
| PdfHeading.FormulaVectorPower | tests/test_converter.py:55 | `"x^2 + y^2"` is wrapped in `$` |
| PdfHeading.FormulaVectorSqrt | tests/test_converter.py:56 | `"sqrt(x)"` is wrapped in `$` |
| PdfHeading.FormulaVectorFraction | tests/test_converter.py:57 | `"a/b"` is wrapped in `$` |
| PdfHeading.FormulaVectorPlain | tests/test_converter.py:58 | `"Plain text"` is left unchanged |
| PdfRender.RenderLine | pdf2md/pdf_to_md.py:43-53 | `prev_text` becomes the stripped line, except that a blank line leaves it unchanged |
| PdfRender.RenderLineKinds | pdf2md/pdf_to_md.py:44-52 | output `"\n"` means a blank line, and a blank line renders so. Output ending in a blank line means a heading, rendered `### line`. Any other non-blank line renders as `format_formula(line)` and the two-space break, and output ending in that break holds the formatted line before it |
| PdfRender.RenderLinesAppend | pdf2md/pdf_to_md.py:43-53 | rendering two runs of lines one after the other, handing `prev_text` on, equals rendering them together |
| PdfRender.FoldPrev | pdf2md/pdf_to_md.py:43-53 | for any per-line step that keeps `prev_text` on blank lines, the final `prev_text` is the last visible line, or the starting one when all are blank |
| PdfRender.PrevIsLastVisible | pdf2md/pdf_to_md.py:43-53 | after a run of lines, `prev_text` is the last non-blank line, stripped, or the starting value when every line is blank |
| PdfRender.Cells | pdf2md/pdf_to_md.py:60 | one cell text per cell, with `None` cells becoming `""` |
| PdfRender.Rule | pdf2md/pdf_to_md.py:62 | the separator row has one `---` per header cell |
| PdfRender.RenderTable | pdf2md/pdf_to_md.py:57-66 | a table is skipped exactly when it has no rows or its first row has no cells |
| PdfRender.HeaderMatchesRule | pdf2md/pdf_to_md.py:60-62 | when header cells hold no `\|`, the header row and the separator row have the same number of column borders, one more than the header width |
| PdfRender.TableNewlines | pdf2md/pdf_to_md.py:60-66 | a kept table whose cells hold no line breaks renders one line per row, plus the separator line and a blank line |
| PdfRender.TableSection | pdf2md/pdf_to_md.py:39-56 | no tables, or `None`, gives nothing. A non-empty list gives the `### Tables` header and then the kept tables, even when every table is skipped |
| PdfRender.PageLines | pdf2md/pdf_to_md.py:37-38 | a page's lines are at least one, and joining them with newlines gives the page text, `""` for `None` |
| PdfRender.RenderPage | pdf2md/pdf_to_md.py:42 | every page's output starts with its `## Page n` header |
| PdfRender.RenderPageParts | pdf2md/pdf_to_md.py:42-68 | a page contributes its header, its rendered lines and then its table section, which ends the page's output. `prev_text` leaves the page as its lines leave it |
| PdfRender.Convert | pdf2md/pdf_to_md.py:30 | the document starts with `# Converted PDF Book` and a blank line |
| PdfRender.FoldPagesInOrder | pdf2md/pdf_to_md.py:36-68 | for any page step whose output starts with a header, the output of the first `k` pages is directly followed by the header of page `k + 1` |
| PdfRender.PagesInOrder | pdf2md/pdf_to_md.py:30-68 | the converted output of the first `k` pages is followed directly by page `k + 1`'s header, so pages appear in order |
| PdfRender.PrevAcrossPages | pdf2md/pdf_to_md.py:33-53 | `prev_text` is not reset between pages: after any pages it equals what one run over all their lines would leave |
| PdfRender.PrevAfterVisibleLine | pdf2md/pdf_to_md.py:33-53 | once any page has had a non-blank line, `prev_text` stays non-blank, so on later lines only upper-case text becomes a heading |
| PdfRender.LastVisibleIndex | pdf2md/pdf_to_md.py:43-53 | at or after a non-blank line there is a last non-blank line, with only blank lines after it |

## Left out

- `load_markdown`, `save_chunks` and `process`: file I/O and JSON/CSV serialisation. `create_semantic_chunks` is modelled on an already loaded document. The reload attempt when the content is empty, and its error path returning `[]`, are not modelled.
- `_generate_chunk_id`: MD5 is a foreign hash. It is the parameter `idOf`, an uninterpreted function of the content.
- pdfplumber, tqdm, `os.path.exists`, the `FileNotFoundError` and the `try`/`except` of `convert`, and writing the output file. A page arrives as its extracted text and tables, each possibly `None`. `convert`'s `True`/`False` result is not modelled.
- `str(cell)` for cells that are not strings: a cell is modelled as an optional string.
- `chunking/chunker.py`, `main.py` and the analysis scripts under `tests/`: I/O wrappers, float statistics and plotting. `chunking/chunker.py` passes a `min_chunk_size` argument that the chunker's constructor does not accept.
- Unicode: `\w`, `\d` and `str.isupper()` are modelled as ASCII. Whitespace is the set `str.isspace()` accepts. Python's `.` in the PDF formula pattern excludes only `\n`, as modelled.
- A small-chunk merge, sentence and fixed-width fallbacks, a "Root" path, dropping empty sections and formula-safe cut points: the chunker's code has none of these, so the model has none either.
- Headings.ScanComplete: states that every matching line start is covered by a reported match, not that it is itself reported. A line start inside another heading match, possible when `\s+` crosses lines, is consumed by that match, as in `finditer`.
- Splitter.Pack: states the chunks' make-up as recorded in the model's bookkeeping (seed and paragraphs). It does not state the source's size promise "never over the limit", because the code breaks it for a single oversized paragraph. The `Bounded` case of the draft invariant captures that exception instead. It does not state that every paragraph is recorded when `overlap_size` is negative. A negative size can give an empty seed, and then trailing empty paragraphs can be dropped at the final flush.
- Chunker.CreateSemanticChunks: the tiling of the document by chunks is stated only when no section is split (Chunker.NoSplitTiles). Sub-chunks repeat the overlap text, so the split case is described through Splitter.Pack instead.
- PdfRender.TableNewlines: counts lines only for tables whose cells contain no newline. A cell's own line breaks would add lines to the output.
