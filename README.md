# Markdown section chunking and its text helpers, in Dafny

This project models the document-processing core of a PDF question-answering
service and proves properties of it.

- **Section chunker.** `MarkdownSectionChunker.split` and its helpers
  (`src/chunker/markdown_section_chunker.py`).
  - A parsed markdown document is folded into flat sections: one per heading,
    plus an untitled one for text before the first heading.
  - The flat list is collapsed into a tree by heading level.
  - Each section becomes one chunk, or one chunk per piece when its content
    exceeds the size limit. Every chunk is headed by the breadcrumb of titles
    above it.
- **Titles.** `sanitize_title` (`src/chunker/utils.py`), and the heading-link
  extraction `_maybe_extract_title_url_from_heading`, whose two regular
  expressions are modelled with the matching semantics of Python's `re`.
- **Fenced replies.** `extract_markdown_content`, which takes the markdown out
  of a model reply fenced with ```` ```markdown ````. It has three copies:
  - `src/utils.py`, with a fallback for ```` ```\nmarkdown ````;
  - `src/converter/utils.py`, the same text;
  - `src/converter/openai.py`, without the fallback.
- **OCR helpers.** The `PymuConverter` helpers (`src/converter/pymu.py`):
  - the OCR decision over the first five pages;
  - the page header written before each OCR'd page;
  - the clean-up of OCR text.
- **List merging.** `merge_consecutive_list_blocks` and `_polygon_to_bbox`
  (`src/converter/pipeline/simple_pdf_pipeline.py`). Each page's layout blocks
  are sorted by reading position, and every run of two or more list items is
  replaced by one block covering their boxes. The page's block list is
  overwritten in place.

## Modules

- `optional.dfy`: `Option`.
- `strings.dfy`: the Python `str` operations the code uses — `isspace`,
  `strip`, `find`, `split`, `join`, `replace` and `str(n)`.
- `chunk_types.dfy`: `MarkdownSection` and `Chunk`.
- `title_sanitizer.dfy`: `sanitize_title`.
- `title_extractor.dfy`: the heading regular expressions and the title/URL
  extraction.
- `token_fold.dfy`: the token loop of `_parse_markdown_into_sections`.
  - `Fold` is the loop as a specification.
  - `Grouped` is an independent description: each heading owns the tokens up
    to the next heading, and the tokens before the first heading form one
    untitled section.
- `section_builder.dfy`:
  - the token loop and the collapse loop as methods;
  - the pre-order flattening of a section forest, and the shape the collapse
    produces (`Canonical`);
  - `Nest`, an independent recursive definition of the tree: a section's
    parent is the nearest earlier section of a lower level.
- `section_chunker.dfy`: `split` and `_chunk_markdown_section`.
- `markdown_fence.dfy`: the three `extract_markdown_content` variants and the
  corrected fallback.
- `pymu_text.dfy`: `_needs_ocr`, `_add_page_header` and `_clean_ocr_text`.
- `list_block_merge.dfy`: sorting, run merging and the in-place page update.
  The update is a method over a `LayoutResult` class.

## Parameters instead of library calls

- `html.unescape` is the parameter `unescape: string -> string`. Where a
  property needs to know what it does, the lemma requires that it leaves text
  without `&` unchanged.
- The langchain `RecursiveCharacterTextSplitter(...).split_text` is the
  parameter `splitText: (string, int) -> seq<string>`.
- mistune's parser and renderer are outside the model. A document arrives as
  its sequence of top-level tokens, each already rendered to markdown: a
  heading with its level, or another block.
- Page texts that PyMuPDF extracts arrive as strings.

## Model

| member | source | states |
|---|---|---|
| Strings.Strip | src/chunker/utils.py:12 | `str.strip()`: the result has no leading or trailing whitespace and is no longer than the input |
| Strings.StripSpec | src/chunker/utils.py:12 | the input is the leading whitespace, then the stripped result, then trailing whitespace |
| Strings.StripUnique | src/chunker/utils.py:12 | stripping whitespace + trimmed text + whitespace gives exactly that text |
| Strings.StripTrimmed | src/chunker/utils.py:12 | stripping is idempotent on trimmed text |
| Strings.Find | src/utils.py:3-7 | `str.find(pat, start)`: the first occurrence at or after `start`, or -1 when there is none |
| Strings.Split | src/converter/pymu.py:77 | `str.split("\n")`: at least one part, no part holds the separator, and the parts joined by the separator give back the input |
| Strings.SplitJoin | src/converter/pymu.py:77-78 | splitting a join of separator-free parts gives back the parts |
| Strings.JoinLines | src/converter/pymu.py:78 | joining non-empty trimmed lines by "\n" gives trimmed text, empty exactly when there are no lines |
| Strings.Replace | src/chunker/utils.py:12 | `str.replace`: a replacement no longer than the pattern does not lengthen the text |
| Strings.ReplaceDeletes | src/chunker/utils.py:12 | `replace("#", "")` leaves no '#' and keeps every other character with its multiplicity |
| Strings.ReplaceAbsent | src/chunker/utils.py:12 | deleting a character the text lacks changes nothing |
| Strings.ReplaceCharConcat | src/chunker/utils.py:12 | deleting a character distributes over concatenation |
| Strings.ReplaceIsDelete | src/chunker/utils.py:12 | `replace(c, "")` is the independent character-by-character deletion: every copy of c dropped, the rest kept in order |
| Strings.NatToString | src/converter/pymu.py:34 | `str(n)`: a non-empty string of digits, with no leading zero unless n is 0 |
| Strings.NatToStringRoundTrip | src/converter/pymu.py:34 | the decimal digits of n read back as n |
| Strings.NatToStringInjective | src/chunker/markdown_section_chunker.py:189 | different numbers print differently |
| TitleSanitizer.SanitizeTitle | src/chunker/utils.py:4-12 | the sanitized title contains no '#' and is trimmed |
| TitleSanitizer.SanitizePlainText | src/chunker/utils.py:12 | without entities, the title is exactly the strip of the heading with every '#' deleted and the other characters kept in order; only whitespace padding separates the title from that text |
| TitleSanitizer.SanitizeIdempotent | src/chunker/utils.py:4-12 | sanitizing a sanitized title without entities changes nothing |
| TitleSanitizer.SanitizeFaqExample | src/chunker/utils.py:8 | the documented example: "## FAQ&#x27s" becomes "FAQ's" |
| TitleSanitizer.DeleteHashesFaq | src/chunker/utils.py:12 | deleting '#' from "## FAQ's" leaves " FAQ's" |
| TitleSanitizer.SanitizeInnerHash | src/chunker/utils.py:12 | every '#' is removed, not only the leading ones: "# C# 9" becomes "C 9" |
| TitleExtractor.OpensLinkIff | src/chunker/markdown_section_chunker.py:114 | the greedy scan accepts a heading exactly when `^\s*#*\s*\[` matches it under some split into whitespace, hashes and whitespace |
| TitleExtractor.GreedyOpensLink | src/chunker/markdown_section_chunker.py:114 | when the greedy scan accepts, its own split is a match |
| TitleExtractor.BacktrackedOpensLink | src/chunker/markdown_section_chunker.py:114 | any match the regular expression finds by backtracking is found by the greedy scan |
| TitleExtractor.ClosesLinkIff | src/chunker/markdown_section_chunker.py:115 | the check accepts exactly when `\)\s*$` matches at some position |
| TitleExtractor.UrlEnd | src/chunker/markdown_section_chunker.py:128 | the lazy `(.*?)\)`: the first ')' reachable without a newline, or none |
| TitleExtractor.TextEnd | src/chunker/markdown_section_chunker.py:128 | the lazy `(.*?)\]\(`: the first "](" reachable without a newline that a URL group can follow, or none |
| TitleExtractor.SearchFrom | src/chunker/markdown_section_chunker.py:131 | `re.search` from a position: the first '[' at which the link pattern matches, and no match before it |
| TitleExtractor.FindLink | src/chunker/markdown_section_chunker.py:128-135 | a found link is a match of `\[(.*?)\]\((.*?)\)` with its bracket and parenthesis positions |
| TitleExtractor.FindLinkSpec | src/chunker/markdown_section_chunker.py:128-135 | there is no result exactly when the pattern matches nowhere; a result is the leftmost match, with the shortest first group, then the shortest second group |
| TitleExtractor.ExtractTitleUrl | src/chunker/markdown_section_chunker.py:103-136 | the title has no '#' and is trimmed; a URL is returned exactly when the heading looks like a link and the pattern matches; then the title is the sanitized link text and the URL the link target, otherwise the sanitized heading |
| MarkdownFence.StartTagAt | src/utils.py:2-3 | the position of "```markdown", or -1; a found tag fits in the text |
| MarkdownFence.FallbackTagAt | src/utils.py:4 | the position of "```\nmarkdown", or -1; a found tag fits in the text |
| MarkdownFence.TagStart | src/utils.py:3-4 | the start tag, else the fallback tag, or -1; skipping 11 characters from a found tag stays in the text |
| MarkdownFence.ContentStart | src/utils.py:4-6 | the corrected content start, which never passes the end of the text |
| MarkdownFence.AfterTagSlice | src/utils.py:7-11 | the text after a tag, up to the next fence, is a trimmed slice of the reply |
| MarkdownFence.ExtractNoTag | src/utils.py:12-13 | without either tag the reply is only stripped |
| MarkdownFence.ExtractClosed | src/utils.py:5-9 | with a closing fence, the content is the stripped text between the tag and the first fence after it |
| MarkdownFence.ExtractUnclosed | src/utils.py:10-11 | without a closing fence, the content is the stripped rest of the reply |
| MarkdownFence.ExtractPrefersStartTag | src/utils.py:3-4 | when "```markdown" occurs, the fallback plays no part: all three variants agree |
| MarkdownFence.ExtractFallback | src/utils.py:4-9 | with only the fallback tag and a closing fence, the content is the stripped text from 11 characters after the tag to the fence |
| MarkdownFence.ExtractFallbackUnclosed | src/utils.py:4-11 | with only the fallback tag and no closing fence, the content is the stripped text from 11 characters after the tag to the end |
| MarkdownFence.ExtractTrimmedSlice | src/utils.py:1-14 | the content is always trimmed and a slice of the reply |
| MarkdownFence.FallbackKeepsStrayN | src/utils.py:4-6 | on "```\nmarkdown\nHello\n```" the function returns "n\nHello" |
| MarkdownFence.IntendedFallback | src/utils.py:4-6 | corrected: with only the fallback tag, the content starts after its 12 characters |
| MarkdownFence.IntendedFallbackExample | src/utils.py:4-6 | corrected: the same reply gives "Hello" |
| MarkdownFence.IntendedTrimmedSlice | src/utils.py:1-14 | the corrected content is trimmed and a slice of the reply |
| MarkdownFence.TaggedOnlyNoTag | src/converter/openai.py:63-64 | the fallback-free variant only strips a reply without the tag |
| MarkdownFence.TaggedOnlyClosed | src/converter/openai.py:55-60 | it takes the stripped text between the tag and the next fence |
| MarkdownFence.TaggedOnlyUnclosed | src/converter/openai.py:61-62 | without a closing fence, it takes the stripped rest |
| MarkdownFence.TaggedOnlyTrimmedSlice | src/converter/openai.py:53-65 | its result is trimmed and a slice of the reply |
| PymuText.AnyShortFromIff | src/converter/pymu.py:26-29 | the `any` generator holds exactly when some checked page from the given index on has fewer than 50 stripped characters |
| PymuText.NeedsOcrIff | src/converter/pymu.py:22-29 | OCR is needed exactly when one of the first five pages has fewer than 50 stripped characters; never for an empty document |
| PymuText.NeedsOcrFirstPages | src/converter/pymu.py:28 | pages after the fifth do not affect the decision |
| PymuText.PageHeaderRoundTrip | src/converter/pymu.py:31-34 | a page header reads back as its page index, and starts with the rule exactly when the page is not the first |
| PymuText.HeaderLineNumber | src/converter/pymu.py:34 | the "# Page n" line carries the 1-based page number |
| PymuText.FirstHeaderShape | src/converter/pymu.py:33-34 | the first page's header has no rule |
| PymuText.LaterHeaderShape | src/converter/pymu.py:33-34 | a later page's header is the rule followed by the "# Page n" line |
| PymuText.FirstPageHeader | src/converter/pymu.py:33-34 | the first page's header is "# Page 1" and a blank line |
| PymuText.StripNoNewline | src/converter/pymu.py:77 | stripping a line cannot introduce a newline |
| PymuText.CleanLinesShape | src/converter/pymu.py:77 | the kept lines are non-empty, trimmed and free of newlines |
| PymuText.CleanLinesAppend | src/converter/pymu.py:77 | the line filter works line by line: it distributes over concatenation |
| PymuText.CleanLinesMembers | src/converter/pymu.py:77 | a line is kept exactly when it is the non-empty strip of an input line |
| PymuText.SqueezeEnds | src/converter/pymu.py:80 | replacing double spaces keeps the first and last characters and adds no newline |
| PymuText.SqueezeAtNewline | src/converter/pymu.py:80 | the replacement never joins across a newline |
| PymuText.SqueezeJoin | src/converter/pymu.py:78-80 | squeezing the joined text is joining the squeezed lines |
| PymuText.SqueezeLinesShape | src/converter/pymu.py:80 | squeezed clean lines stay non-empty, trimmed and free of newlines |
| PymuText.CleanOcrTextLines | src/converter/pymu.py:72-80 | the cleaned text is trimmed, no longer than the joined clean lines, and every line of it is non-empty and trimmed |
| PymuText.SqueezeLeavesDoubleSpace | src/converter/pymu.py:80 | one pass of the replacement turns three spaces into two, not one |
| TokenFold.HeadingSection | src/chunker/markdown_section_chunker.py:61-71 | a heading opens a section of its level with no content and no sub-sections |
| TokenFold.PiecesAreLines | src/chunker/markdown_section_chunker.py:75 | the stripped renderings that are added are non-empty and trimmed |
| TokenFold.AppendTrimmed | src/chunker/markdown_section_chunker.py:78-79 | adding a piece joins it to the content by one newline, or takes whichever of the two is non-empty |
| TokenFold.BodySnoc | src/chunker/markdown_section_chunker.py:78-79 | adding a token's piece to a section's content is the content of the longer token list |
| TokenFold.BodyTrimmed | src/chunker/markdown_section_chunker.py:79 | a section's content is trimmed |
| TokenFold.HeadedGroupsSnoc | src/chunker/markdown_section_chunker.py:58-79 | after the first heading, one loop step extends the grouping by one token |
| TokenFold.GroupedSnoc | src/chunker/markdown_section_chunker.py:58-89 | one loop step extends the grouping of the tokens seen by the next token |
| TokenFold.AllLead | src/chunker/markdown_section_chunker.py:80-89 | a document without headings becomes one untitled level-1 section holding all its text |
| TokenFold.FirstHeadingAfterLead | src/chunker/markdown_section_chunker.py:59-71 | the first heading follows the untitled lead section as a new empty section |
| TokenFold.FoldIsGrouped | src/chunker/markdown_section_chunker.py:58-89 | the token loop gives the grouping: each heading owns the tokens up to the next heading, and the text before the first heading forms one untitled section |
| TokenFold.HeadedGroupsShape | src/chunker/markdown_section_chunker.py:59-79 | from the first heading on there is one section per heading, each with trimmed content and no sub-sections |
| TokenFold.GroupedShape | src/chunker/markdown_section_chunker.py:58-89 | the loop makes one section per heading, plus one when the document starts with text, all without sub-sections |
| SectionBuilder.CanonicalIff | src/chunker/markdown_section_chunker.py:92-100 | the collapsed shape: every tree has deeper children, recursively, and the top-level levels never rise |
| SectionBuilder.NestPreOrder | src/chunker/markdown_section_chunker.py:92-100 | flattening the nested forest in pre-order gives back the flat sections |
| SectionBuilder.NestCanonical | src/chunker/markdown_section_chunker.py:92-100 | the nesting has the collapsed shape |
| SectionBuilder.CanonicalIsNest | src/chunker/markdown_section_chunker.py:92-100 | a forest of the collapsed shape is the nesting of its own flattening |
| SectionBuilder.CanonicalUnique | src/chunker/markdown_section_chunker.py:92-100 | two forests of the collapsed shape with the same flattening are equal |
| SectionBuilder.Attach | src/chunker/markdown_section_chunker.py:96-97 | moving a section under its predecessor shortens the list by one |
| SectionBuilder.AttachIndex | src/chunker/markdown_section_chunker.py:96-97 | the moved section becomes the last child of its predecessor; the sections before are unchanged, and those after shift down by one |
| SectionBuilder.AttachPreOrder | src/chunker/markdown_section_chunker.py:96-97 | moving a section under its predecessor keeps the pre-order flattening |
| SectionBuilder.AttachTreesOk | src/chunker/markdown_section_chunker.py:95-97 | a deeper section moved under a shallower one keeps every tree well formed |
| SectionBuilder.AttachLastChildren | src/chunker/markdown_section_chunker.py:95-97 | the move keeps each tree's last child at least as deep as the section after it |
| SectionBuilder.AttachStep | src/chunker/markdown_section_chunker.py:95-98 | one attach step, with the index reset to the end, keeps the collapse invariant |
| SectionBuilder.CollapseDone | src/chunker/markdown_section_chunker.py:94-101 | when the index reaches 0, the forest has the collapsed shape and is the nesting of the flat list |
| SectionBuilder.Collapse | src/chunker/markdown_section_chunker.py:91-101 | the collapse loop returns a forest of the collapsed shape whose flattening is the flat list; that forest is its nesting |
| SectionBuilder.AddToken | src/chunker/markdown_section_chunker.py:59-89 | one token opens a section or extends the last one (or the untitled lead), as the loop step says |
| SectionBuilder.FoldTokens | src/chunker/markdown_section_chunker.py:58-89 | the token loop returns the grouping of the document's tokens |
| SectionBuilder.ParseIntoSections | src/chunker/markdown_section_chunker.py:47-101 | the sections are the nesting of the grouped tokens, of the collapsed shape, and flatten back to the grouping |
| SectionBuilder.NestSkippedLevel | src/chunker/markdown_section_chunker.py:92-100 | levels 1, 3, 2 nest as one tree whose two children are the level-3 and level-2 sections |
| SectionBuilder.NestSingle | src/chunker/markdown_section_chunker.py:92-100 | one section stays as it is |
| SectionBuilder.NestChain | src/chunker/markdown_section_chunker.py:92-100 | levels 1, 2, 3 nest as a chain |
| SectionBuilder.NestRising | src/chunker/markdown_section_chunker.py:92-100 | levels 2, 1 stay two top-level sections |
| SectionChunker.RootHeading | src/chunker/markdown_section_chunker.py:166-172 | the root heading is the title itself |
| SectionChunker.ChunkHeadingPath | src/chunker/markdown_section_chunker.py:153-164 | extending a breadcrumb by a title is the breadcrumb of the longer path, with empty titles left out |
| SectionChunker.PartTitleNumber | src/chunker/markdown_section_chunker.py:184-190 | a part title names its part number, and different parts get different titles |
| SectionChunker.ChunkTopLevel | src/chunker/markdown_section_chunker.py:33-36 | the loop over top-level sections returns the concatenated chunks of each |
| SectionChunker.SplitDocument | src/chunker/markdown_section_chunker.py:24-38 | `split` chunks the nesting of the grouped tokens |
| SectionChunker.PathsPreOrder | src/chunker/markdown_section_chunker.py:255-262 | chunking visits the sections in pre-order |
| SectionChunker.ChunkSectionByPath | src/chunker/markdown_section_chunker.py:204-266 | a section's chunks are the chunks of each section below it, in pre-order, each headed by its path of titles |
| SectionChunker.ChunkChildrenByPath | src/chunker/markdown_section_chunker.py:256-262 | the children's chunks are, in order, those of each descendant headed by its path |
| SectionChunker.TopLevelByPath | src/chunker/markdown_section_chunker.py:215-219 | a top-level section starts an empty path, and its title is the root title of everything below it |
| SectionChunker.ChunkEachRoot | src/chunker/markdown_section_chunker.py:243-259 | every chunk made along paths carries the given root title |
| SectionChunker.RootTitleFixed | src/chunker/markdown_section_chunker.py:217-219 | every chunk of a top-level section has that section's title as root title |
| SectionChunker.OwnChunksSplit | src/chunker/markdown_section_chunker.py:226-245 | an over-long section gives one chunk per piece, in order: the piece as original content, a "# heading Part n" line above it, and a part title that names n |
| SectionChunker.PartChunkOf | src/chunker/markdown_section_chunker.py:232-244 | the chunk built for a piece has the part's content, heading line and title |
| SectionChunker.ChunkEachUnsplit | src/chunker/markdown_section_chunker.py:246-253 | with no section over the limit, each section along the paths gives exactly one whole chunk |
| SectionChunker.TopLevelUnsplit | src/chunker/markdown_section_chunker.py:246-265 | with no section over the limit, a top-level section gives one whole chunk per section below it, in pre-order |
| SectionChunker.ForestUnsplitContents | src/chunker/markdown_section_chunker.py:33-36 | with no section over the limit, the chunks' original contents are the sections' contents in pre-order |
| SectionChunker.DocumentUnsplit | src/chunker/markdown_section_chunker.py:24-38 | with no section over the limit, `split` keeps every grouped section's content, in document order |
| SectionChunker.NoLimitUnsplit | src/chunker/markdown_section_chunker.py:226 | with no limit, or a limit of 0, nothing is split |
| SectionChunker.NestedExample | src/chunker/markdown_section_chunker.py:204-266 | Intro > Setup > Docker gives three chunks headed "Intro", "Intro > Setup" and "Intro > Setup > Docker", all with root title "Intro" |
| ListBlockMerge.MinOfSpec | src/converter/pipeline/simple_pdf_pipeline.py:382-383 | `min` is an element no greater than any element |
| ListBlockMerge.MaxOfSpec | src/converter/pipeline/simple_pdf_pipeline.py:384-385 | `max` is an element no smaller than any element |
| ListBlockMerge.PolygonToBboxSpec | src/converter/pipeline/simple_pdf_pipeline.py:40-44 | the box of a polygon is ordered, contains every point, and each side touches a point |
| ListBlockMerge.CornersRoundTrip | src/converter/pipeline/simple_pdf_pipeline.py:387-391 | the box of the four-corner polygon built from an ordered box is that box |
| ListBlockMerge.UnionBoxSpec | src/converter/pipeline/simple_pdf_pipeline.py:381-387 | the merged box contains every box of the run, is ordered when they are, and is the smallest such box: each of its sides is that side of some box of the run |
| ListBlockMerge.SortPermutes | src/converter/pipeline/simple_pdf_pipeline.py:353 | sorting by position keeps the blocks with their multiplicities |
| ListBlockMerge.SortSpec | src/converter/pipeline/simple_pdf_pipeline.py:353 | the sort orders by position and is stable: blocks of equal position keep their order |
| ListBlockMerge.SortSorted | src/converter/pipeline/simple_pdf_pipeline.py:353 | an already sorted page is left as it is |
| ListBlockMerge.RunLengthSpec | src/converter/pipeline/simple_pdf_pipeline.py:366-369 | the run consists of list items and stops at the first block that is not one |
| ListBlockMerge.MergeRunsHead | src/converter/pipeline/simple_pdf_pipeline.py:394-398 | the first block of the result has the label and position of the first block of the input |
| ListBlockMerge.MergeRunsNoAdjacent | src/converter/pipeline/simple_pdf_pipeline.py:358-411 | after merging, no two list items are adjacent |
| ListBlockMerge.MergeRunsCount | src/converter/pipeline/simple_pdf_pipeline.py:372-411 | a run of n list items becomes one block: the count drops by n - 1 per run |
| ListBlockMerge.MergeRunsKeepsOthers | src/converter/pipeline/simple_pdf_pipeline.py:408-411 | every block that is not a list item is kept, in order |
| ListBlockMerge.MergedBlockCovers | src/converter/pipeline/simple_pdf_pipeline.py:381-398 | the merged block has the first block's label and position, and its box is the smallest box containing every box of the run |
| ListBlockMerge.MergeRunsSorted | src/converter/pipeline/simple_pdf_pipeline.py:358-411 | merging keeps a page sorted by position |
| ListBlockMerge.MergeRunsNothingToMerge | src/converter/pipeline/simple_pdf_pipeline.py:402-411 | a page without adjacent list items is kept as it is |
| ListBlockMerge.MergeRunsBoxed | src/converter/pipeline/simple_pdf_pipeline.py:388-398 | every list item of the result still has an outline |
| ListBlockMerge.MergePageIdempotent | src/converter/pipeline/simple_pdf_pipeline.py:351-417 | merging a page twice gives what merging it once gives |
| ListBlockMerge.CollectRun | src/converter/pipeline/simple_pdf_pipeline.py:363-369 | the inner loop collects exactly the maximal run of list items starting at i |
| ListBlockMerge.RunBoxes | src/converter/pipeline/simple_pdf_pipeline.py:374-379 | the boxes collected are those of the run's blocks |
| ListBlockMerge.MergeRunsAtRun | src/converter/pipeline/simple_pdf_pipeline.py:362-407 | at a run, the result starts with the merged block (or the lone item) and continues after the run |
| ListBlockMerge.MergeRunsAtOther | src/converter/pipeline/simple_pdf_pipeline.py:408-411 | at another block, the result starts with that block |
| ListBlockMerge.MergeNext | src/converter/pipeline/simple_pdf_pipeline.py:359-411 | one outer iteration emits the next block of the page's merge and moves past what it consumed |
| ListBlockMerge.MergeSorted | src/converter/pipeline/simple_pdf_pipeline.py:355-411 | the outer loop merges the sorted page's runs |
| ListBlockMerge.MergePage | src/converter/pipeline/simple_pdf_pipeline.py:351-411 | one page is sorted and its runs merged |
| ListBlockMerge.Paired | src/converter/pipeline/simple_pdf_pipeline.py:350 | `zip` pairs as many pages as the shorter list holds |
| ListBlockMerge.MergeInPlace | src/converter/pipeline/simple_pdf_pipeline.py:417 | a page's block list is replaced by its merge |
| ListBlockMerge.MergeConsecutiveListBlocks | src/converter/pipeline/simple_pdf_pipeline.py:337-420 | the pages paired with an image are returned in order and have their blocks merged in place; the other pages are unchanged |

## Left out

- mistune's markdown parser and renderer (`_render_ast_token_to_markdown`, lines 40-45 of `src/chunker/markdown_section_chunker.py`): a third-party library. The model starts from the rendered top-level tokens.
- `_increment_markdown_heading_levels` (lines 138-151 of the same file): nothing in the chunker calls it, and it is made only of mistune calls.
- The internals of langchain's `RecursiveCharacterTextSplitter`: a library, so it is the `splitText` parameter. Only what the chunker does with the pieces is proved.
- `html.unescape`: a library function, so it is the `unescape` parameter.
- `MarkdownSectionChunker.split`'s docstring promise that chunks are no larger than the limit: it holds only if the splitter keeps it. The heading line added to each part can push a chunk past the limit, so the model promises nothing here.
- The OCR, PDF loading and image conversion of `_convert_with_ocr` and `convert` (PyMuPDF): I/O and foreign calls. Page texts are parameters.
- The layout model, the LLM calls, the vector store and the user interface of the rest of the service, and `visualize_layout_blocks` in `src/converter/utils.py`, which only draws.
- Logging and the progress `print`s of `merge_consecutive_list_blocks`.
- Floating-point coordinates: the merge compares coordinates only with `min`/`max`, so they are integers here.
- The `hasattr(block, 'bbox')` branch of `merge_consecutive_list_blocks`: a block's own `bbox` is taken to be the box of its polygon.
- MergeConsecutiveListBlocks: requires every list item to have a non-empty outline. The source needs one only for items in runs of two or more, where Python's `min` of an empty list would raise; a lone list item is kept as it is.
- MergePage: same requirement as MergeConsecutiveListBlocks, for one page.
- MergeSorted: same requirement as MergeConsecutiveListBlocks, for one sorted page.
- MergeNext: same requirement as MergeConsecutiveListBlocks, for the rest of a sorted page.
- MergeInPlace: same requirement as MergeConsecutiveListBlocks, for one page updated in place.
- The aliasing between `MarkdownSection` objects: sections are values here. Every `sub_sections` list in the source is fresh, and the flat list is local to `_parse_markdown_into_sections`, so no sharing is observable.

## Findings

| source | as written | input that shows it | evidently intended | confidence | as-written member | corrected member |
|---|---|---|---|---|---|---|
| src/utils.py:4-6 | after finding the 12-character fallback tag "```\nmarkdown", the content start skips only `len("```markdown")` = 11 characters | "```\nmarkdown\nHello\n```" gives "n\nHello" | skip the whole fallback tag, giving "Hello" | high, not executed | MarkdownFence.FallbackKeepsStrayN | MarkdownFence.IntendedFallbackExample |

The same code is in `src/converter/utils.py:1-14`. `MarkdownFence.IntendedFallback` proves, for every reply that has only the fallback tag, that the corrected function returns the stripped text between the tag and the next fence.
