# Verdo ingestion pipeline, modelled in Dafny

Verdo's ingester turns a lecture file (PowerPoint or PDF) into an ordered
list of classified, content-bearing elements. It then groups those elements
into pedagogical concepts. This project models the decision and bookkeeping
logic of that pipeline and proves what it promises:

- **Duplicate suppression** (`NmsProcessor`): intersection-over-union of
  axis-aligned boxes over `real` coordinates, and the greedy, class-aware
  suppression that sorts the caller's list in place and pops its most
  confident detection.
- **Analysis**:
  - `ShapeClassifier`: the fixed-priority shape classifier.
  - `PdfAnalyzer`: the PDF page loop. It clamps the page count, drops
    `abandon` boxes and suppresses duplicates. Detector output is an input.
  - `PptxAnalyzer`: the slide loop, one element per shape, sorted by
    (top, left).
- **Extraction dispatcher** (`ContentExtractor`, on top of the generic
  `ExtractorPasses`):
  - file-type routing and the type-to-handler map;
  - the three passes: submit image futures, handle the rest synchronously,
    then join each future back to the element it was recorded for.
- **Handlers**:
  - `TextHandler`: whitespace normalisation.
  - `DefaultHandler`: the constant fallback.
  - `TableHandler`: row normalisation, markdown, the balanced-bracket
    scanner, and the pdfplumber-then-GPT fallback with its counters.
  - `FormulaHandler`: the layered formula chain with its confidence
    constants and the symbol rewriting.
  - `ImageCache`: the hash-keyed description cache that both image handlers
    share.
  - `ImageHandler`: the image handler's category routing and coordinator
    task.
  - `TempImageHandler`: the legacy image handler's hit and miss
    bookkeeping.
- **Concept builder** (`ConceptBuilder`):
  - the insertion-ordered concept map;
  - the skip, create and add decisions;
  - serial batching and parallel chunking;
  - the merge by title and then by id;
  - the statistics.

Helper modules:

- `Wrappers` holds `Option` and Python truthiness of an optional string.
- `Strings` holds Python's `strip`, `split()`/`join`, substring `in`,
  `endswith`, ASCII case mapping, `str.replace` of one character, `split('\n')`
  and `str(int)`.
- `Sorting` is a stable insertion sort, the model of Python's stable `sort`
  and `sorted`.
- `PptxShapes` is the abstract python-pptx shape record.

Everything outside the process is an input:

- the YOLO detector's boxes;
- PyMuPDF's text and renderer;
- pdfplumber's table list;
- python-pptx attributes;
- every LLM reply;
- sha-256;
- whether a cache file can be read or written.

A Python exception that propagates to the caller is `None` in the model.
For example, `computeIou`'s division by a zero union makes `removeDuplicates`
and the PDF analyzer fail. Futures are values: a completed future carries its
result, and a pending one carries the job that will resolve it.

Where the documentation and the code differ, the model follows the code:

- `computeIou` raises on a zero union instead of returning 0.
- An inverted box gives IoU 0, because the strict disjointness test fires
  first.
- The flowchart prompt of the image handler is unreachable.

## Model

Every path below is relative to the repository root.

| member | source | states |
|---|---|---|
| NmsProcessor.IouWellFormed | verdo-backend/app/services/ingester/core/nms_processor.py:6-16 | for boxes with non-negative extent, IoU raises exactly when the boxes overlap and both have zero area; otherwise it lies in [0, 1] |
| NmsProcessor.IouSymmetric | verdo-backend/app/services/ingester/core/nms_processor.py:6-16 | IoU does not depend on the order of its two boxes, including whether it raises |
| NmsProcessor.InvertedBoxIsApart | verdo-backend/app/services/ingester/core/nms_processor.py:9-12 | a box with max below min on an axis never intersects anything, so IoU is 0 in both orders and nothing is clamped |
| NmsProcessor.TouchingBoxesReachDivision | verdo-backend/app/services/ingester/core/nms_processor.py:11-16 | the disjointness test is strict: boxes that only touch along an edge reach the division and score 0 |
| NmsProcessor.ZeroUnionRaises | verdo-backend/app/services/ingester/core/nms_processor.py:13-16 | two coincident zero-area boxes divide by zero |
| NmsProcessor.IouExample | verdo-backend/app/services/ingester/core/nms_processor.py:6-16 | a 8x8 box inside a 10x10 box has IoU 0.64 |
| NmsProcessor.RemoveOverlapping | verdo-backend/app/services/ingester/core/nms_processor.py:27-31 | the filtered list is a subsequence of the rest and no longer than it |
| NmsProcessor.RemoveOverlappingFacts | verdo-backend/app/services/ingester/core/nms_processor.py:27-31 | every survivor is of another class or overlaps the kept box at most the threshold; every dropped box is of the same class and overlaps above it |
| NmsProcessor.RemoveNothing | verdo-backend/app/services/ingester/core/nms_processor.py:27-31 | when every box survives the comparison, the filter returns the list unchanged |
| NmsProcessor.FilterSurvivors | verdo-backend/app/services/ingester/core/nms_processor.py:27-31 | the comprehension loop computes the survivor list, or raises when an IoU on the way raises |
| NmsProcessor.RemoveDuplicates | verdo-backend/app/services/ingester/core/nms_processor.py:20-32 | the result is the greedy suppression of the original contents; the caller's list ends as the input stably sorted by confidence, highest first, without its first entry (empty for an empty input) |
| NmsProcessor.CallerListLosesBest | verdo-backend/app/services/ingester/core/nms_processor.py:22-25 | what the caller's list keeps plus the popped detection is exactly the input; the popped one is at least as confident as every input detection; the rest stay sorted |
| NmsProcessor.SuppressEmpty | verdo-backend/app/services/ingester/core/nms_processor.py:21 | an empty input gives an empty result |
| NmsProcessor.KeptIsSortedSubsequence | verdo-backend/app/services/ingester/core/nms_processor.py:22-26 | the kept boxes are a subsequence of the stably sorted input, still in that order; the most confident box is always kept, first |
| NmsProcessor.NoSameClassOverlap | verdo-backend/app/services/ingester/core/nms_processor.py:27-31 | no two kept boxes of the same class overlap above the threshold |
| NmsProcessor.RemovedOnlyBySameClass | verdo-backend/app/services/ingester/core/nms_processor.py:29-30 | every removed box overlaps, above the threshold, some kept box of its own class; a box of another class never removes it |
| NmsProcessor.SuppressIdempotent | verdo-backend/app/services/ingester/core/nms_processor.py:20-32 | suppressing the output again returns it unchanged |
| NmsProcessor.CompatibleKeptWhole | verdo-backend/app/services/ingester/core/nms_processor.py:20-32 | when no same-class pair overlaps above the threshold, the result is the whole sorted input |
| NmsProcessor.ThresholdExample | verdo-backend/app/services/ingester/core/nms_processor.py:20-32 | two same-class boxes with IoU 0.64 are both kept at threshold 0.7, and the less confident one is dropped at 0.5 |
| NmsProcessor.CrossClassExample | verdo-backend/app/services/ingester/core/nms_processor.py:29 | identical boxes of different classes are both kept, most confident first |
| ShapeClassifier.TypeCodesFirst | verdo-backend/app/services/ingester/core/shape_classifier.py:9-15 | PICTURE, TABLE, CHART and EMBEDDED_OLE_OBJECT decide the label before any math test |
| ShapeClassifier.OmmlPreempts | verdo-backend/app/services/ingester/core/shape_classifier.py:16-20 | any other shape with OMML is an equation, ahead of the diagram, group, text box, placeholder and text rules |
| ShapeClassifier.ShapesWithoutOmml | verdo-backend/app/services/ingester/core/shape_classifier.py:21-30 | without OMML, type 15 is a diagram, type 17 is text, and a group is an equation exactly when it holds an OLE object |
| ShapeClassifier.PlaceholderRule | verdo-backend/app/services/ingester/core/shape_classifier.py:31-42 | a placeholder is an image if it exposes one, else text if its text frame is not blank, else unknown |
| ShapeClassifier.FallbackRule | verdo-backend/app/services/ingester/core/shape_classifier.py:43-51 | any remaining shape is an equation with OMML, else text with a text frame, else unknown |
| ShapeClassifier.HasOmmlCases | verdo-backend/app/services/ingester/core/shape_classifier.py:54-88 | no element means no OMML; otherwise OMML is found by the xpath query, by `oMath` in the element's XML, or by `oMath` in some run's XML |
| ShapeClassifier.MentionsOmmlIsOMath | verdo-backend/app/services/ingester/core/shape_classifier.py:74 | the `oMathPara` test adds nothing to the `oMath` test |
| ShapeClassifier.ClassifyInTaxonomy | verdo-backend/app/services/ingester/core/shape_classifier.py:8-51 | every label is one of image, table, chart, equation, diagram, group, text, unknown |
| PdfAnalyzer.PagesToProcess | verdo-backend/app/services/ingester/analyzers/pdf_analyzer.py:22-24 | all pages when `maxPages` is missing or 0; otherwise `min(pages, maxPages)`, which is no pages for a negative limit |
| PdfAnalyzer.Kept | verdo-backend/app/services/ingester/analyzers/pdf_analyzer.py:33-42 | no kept detection is labelled `abandon`, and none is added |
| PdfAnalyzer.KeptFromBoxes | verdo-backend/app/services/ingester/analyzers/pdf_analyzer.py:33-42 | a detection is kept exactly when some non-`abandon` box has its class, box and confidence |
| PdfAnalyzer.CollectDetections | verdo-backend/app/services/ingester/analyzers/pdf_analyzer.py:30-42 | the box loop builds the page's filtered detections; a prediction without boxes gives none |
| PdfAnalyzer.AnalyzePage | verdo-backend/app/services/ingester/analyzers/pdf_analyzer.py:30-44 | one page's detections are its non-`abandon` boxes after suppression, or the error suppression raises |
| PdfAnalyzer.Analyze | verdo-backend/app/services/ingester/analyzers/pdf_analyzer.py:18-49 | the page loop returns the clamped number of page results, or fails when a suppression raises |
| PdfAnalyzer.ResultsShape | verdo-backend/app/services/ingester/analyzers/pdf_analyzer.py:26-45 | the results are numbered 1..N in order, and each page's detections are the suppression of its filtered boxes |
| PdfAnalyzer.ResultsFail | verdo-backend/app/services/ingester/analyzers/pdf_analyzer.py:44 | the analysis fails exactly when some processed page's suppression raises |
| PdfAnalyzer.NoAbandonInOutput | verdo-backend/app/services/ingester/analyzers/pdf_analyzer.py:40-45 | no output detection is `abandon`, and each comes from its own page's boxes |
| PptxAnalyzer.Content | verdo-backend/app/services/ingester/analyzers/pptx_analyzer.py:24 | a text shape with a text frame gets the first min(100, len) characters of its text; anything else gets `<TYPE>` in upper case |
| PptxAnalyzer.Unsorted | verdo-backend/app/services/ingester/analyzers/pptx_analyzer.py:16-26 | before sorting there is one element per shape, in shape order |
| PptxAnalyzer.Analyze | verdo-backend/app/services/ingester/analyzers/pptx_analyzer.py:11-29 | one result per slide, numbered from 1 in order, each built from that slide's shapes |
| PptxAnalyzer.SlideElements | verdo-backend/app/services/ingester/analyzers/pptx_analyzer.py:16-26 | the loop over a slide's shapes yields exactly one record per shape, in shape order |
| PptxAnalyzer.OneElementPerShape | verdo-backend/app/services/ingester/analyzers/pptx_analyzer.py:16-27 | sorting keeps exactly the per-shape elements, one per shape |
| PptxAnalyzer.SlideSorted | verdo-backend/app/services/ingester/analyzers/pptx_analyzer.py:27 | elements are ordered by (top, left), and elements at the same position keep shape order |
| PptxAnalyzer.ElementsDescribeShapes | verdo-backend/app/services/ingester/analyzers/pptx_analyzer.py:17-25 | every element is built from some shape of its slide, carries the slide number, and has a label from the taxonomy |
| TextHandler.HandlePptx | verdo-backend/app/services/ingester/handlers/text_handler.py:8-12 | no text frame gives the empty string; otherwise the result is the shape's text with leading and trailing whitespace removed: the text is whitespace, the result, whitespace, and the result neither starts nor ends with whitespace |
| TextHandler.HandlePptxIsStripped | verdo-backend/app/services/ingester/handlers/text_handler.py:8-12 | a shape whose text is a trimmed string padded with whitespace returns exactly that string |
| TextHandler.CollapseWhitespace | verdo-backend/app/services/ingester/handlers/text_handler.py:29 | the result is trimmed, single-spaced and has the same words as the input |
| TextHandler.CollapseIdempotent | verdo-backend/app/services/ingester/handlers/text_handler.py:29 | normalising twice is normalising once |
| TextHandler.HandlePdfShape | verdo-backend/app/services/ingester/handlers/text_handler.py:14-29 | the PDF result is trimmed and single-spaced and keeps the words of the text under the scaled box |
| TextHandler.UnitScale | verdo-backend/app/services/ingester/handlers/text_handler.py:17-23 | at the default scale 1.0 the box is used as given |
| DefaultHandler.EntryPointsAgree | verdo-backend/app/services/ingester/handlers/default_handler.py:6-16 | all three entry points return `<UNHANDLED_ELEMENT>` whatever their arguments |
| TableHandler.CleanRow | verdo-backend/app/services/ingester/handlers/table_handler.py:274-278 | a non-list row becomes empty; otherwise each cell is stripped, and a non-string cell becomes blank |
| TableHandler.MaxWidth | verdo-backend/app/services/ingester/handlers/table_handler.py:279-280 | the width is that of some longest row, and 0 when there are no rows |
| TableHandler.Pad | verdo-backend/app/services/ingester/handlers/table_handler.py:285-311 | padding keeps the row as a prefix and adds blanks up to the width, and nothing to a row already as wide |
| TableHandler.NormalizedShape | verdo-backend/app/services/ingester/handlers/table_handler.py:267-287 | normalisation keeps the row count; every row has the longest cleaned row's width, with the cleaned cells first, then blanks, all trimmed |
| TableHandler.NormalizeData | verdo-backend/app/services/ingester/handlers/table_handler.py:267-287 | the cleaning and padding loops compute the normalised table, and the empty table for no data |
| TableHandler.CleanRows | verdo-backend/app/services/ingester/handlers/table_handler.py:273-280 | the first loop yields the cleaned rows and the width of the widest |
| TableHandler.PadRows | verdo-backend/app/services/ingester/handlers/table_handler.py:283-286 | the second loop pads every row to the width |
| TableHandler.BuildResultShape | verdo-backend/app/services/ingester/handlers/table_handler.py:289-301 | `rows` counts the input rows; `columns` is the longest cleaned row, which every data row now has; the source is the caller's |
| TableHandler.Lines | verdo-backend/app/services/ingester/handlers/table_handler.py:303-313 | a non-empty table renders as one line per row plus a separator: the header line first, then one `---` per header cell |
| TableHandler.LinesRow | verdo-backend/app/services/ingester/handlers/table_handler.py:310-312 | every further row's line is that row padded with blanks to the header's width |
| TableHandler.MarkdownLines | verdo-backend/app/services/ingester/handlers/table_handler.py:303-313 | splitting the markdown at newlines gives back exactly those lines, when no cell holds a newline |
| TableHandler.Find | verdo-backend/app/services/ingester/handlers/table_handler.py:257-258 | the index of the first occurrence, or none when the character is absent |
| TableHandler.ExtractBalanced | verdo-backend/app/services/ingester/handlers/table_handler.py:256-265 | the result is the shortest substring from the first opening character at which the depth returns to 0; none when that character is absent or never balances |
| TableHandler.WithHeadersRule | verdo-backend/app/services/ingester/handlers/table_handler.py:228-232 | truthy headers go in front exactly when the first row differs from them under Python equality (strings by text, other values by their JSON value); with headers the first row is the headers; applying the rule twice changes nothing |
| TableHandler.NumericHeadersInserted | verdo-backend/app/services/ingester/handlers/table_handler.py:228-234 | numeric headers over a numeric first row are inserted as a row of their own, and non-string cells clean to empty strings |
| TableHandler.GptBytesOutcome | verdo-backend/app/services/ingester/handlers/table_handler.py:214-248 | a JSON table, whatever its cells' JSON types, becomes a `table_image` result with one row per row after the header rule, carrying the reply's title and footnotes; other replies become a description; errors become an error record; all keep the caller's source |
| TableHandler.GptHeadersFirst | verdo-backend/app/services/ingester/handlers/table_handler.py:228-234 | separate headers, cleaned, open the GPT table's data |
| TableHandler.ExtractWithPdfplumber | verdo-backend/app/services/ingester/handlers/table_handler.py:124-156 | there is a result exactly when the region yields a first table that is non-empty |
| TableHandler.PlumberResultHasData | verdo-backend/app/services/ingester/handlers/table_handler.py:141-151 | a pdfplumber result is a table with data, sourced `pdfplumber` |
| TableHandler.TableHandler.constructor | verdo-backend/app/services/ingester/handlers/table_handler.py:18-28 | the fallback is on only when asked for and both an API key and a client exist; the counters start at 0 |
| TableHandler.TableHandler.HandlePdf | verdo-backend/app/services/ingester/handlers/table_handler.py:78-114 | a pdfplumber result with data is returned and counted; otherwise the GPT fallback runs and is counted when enabled, including when rendering the region fails; otherwise the fixed error record, with neither counter changed |
| TableHandler.ExtractWithGpt | verdo-backend/app/services/ingester/handlers/table_handler.py:158-175 | a failed render gives an error record with source `gpt-4o`; otherwise the reply is handled with source `gpt-4o-pdf-fallback` and gives a table exactly when it is a JSON table |
| TableHandler.TableHandler.GetStats | verdo-backend/app/services/ingester/handlers/table_handler.py:315-320 | the total is the two counters' sum and never exceeds the number of `handlePdf` calls |
| FormulaHandler.SimpleTextToLatex | verdo-backend/app/services/ingester/handlers/formula_handler.py:242-258 | no result for empty text or text without a strong symbol; otherwise the result is trimmed and contains none of the replaced symbols |
| FormulaHandler.SimpleLatexNonEmpty | verdo-backend/app/services/ingester/handlers/formula_handler.py:246-258 | a result, when there is one, is never empty, because a strong symbol survives the rewriting |
| FormulaHandler.ApplyTableRemoves | verdo-backend/app/services/ingester/handlers/formula_handler.py:249-255 | after the replacements, no replaced symbol is left, and every character comes from the text or a replacement |
| FormulaHandler.ExtractFormula | verdo-backend/app/services/ingester/handlers/formula_handler.py:192-212 | a JSON reply's LaTeX is passed through with no error, at confidence 0.95 exactly when it is non-blank, else 0.0; `json_parse_error` exactly for an unparseable reply; a raised call gives no LaTeX |
| FormulaHandler.TextLayerConfidence | verdo-backend/app/services/ingester/handlers/formula_handler.py:214-240 | 0.9 exactly for LaTeX from the LLM; else 0.6 exactly when the symbol rewriting yields something; 0.0 exactly when no LaTeX results |
| FormulaHandler.ExtractOmml | verdo-backend/app/services/ingester/handlers/formula_handler.py:145-153 | OMML is found exactly when the shape has an element whose XML contains `m:oMath`, and it is that XML |
| FormulaHandler.ShapeOmmlLayer | verdo-backend/app/services/ingester/handlers/formula_handler.py:40-55 | the first layer answers only from the shape's own OMML, sourced `omml` |
| FormulaHandler.SlideOmmlLayer | verdo-backend/app/services/ingester/handlers/formula_handler.py:57-77 | the slide layer answers only when the shape had no OMML and both the file path and slide number are truthy, sourced `omml_slide` |
| FormulaHandler.TextLayer | verdo-backend/app/services/ingester/handlers/formula_handler.py:79-101 | the text layer answers only with an LLM and non-empty text in a text frame, sourced `text_llm` |
| FormulaHandler.OcrLayer | verdo-backend/app/services/ingester/handlers/formula_handler.py:103-119 | the OCR layer answers exactly when there is an LLM and the shape has an image, sourced `ocr` |
| FormulaHandler.LayerOrder | verdo-backend/app/services/ingester/handlers/formula_handler.py:39-121 | the layers are tried in order (shape OMML, slide OMML, text, OCR, failure) and the first that answers decides the source; failure only without an LLM or an image |
| FormulaHandler.OmmlConfidence | verdo-backend/app/services/ingester/handlers/formula_handler.py:44-72 | an OMML answer has LaTeX or MathML, with confidence 1.0 when it has LaTeX and 0.8 otherwise |
| FormulaHandler.LlmLayerConfidence | verdo-backend/app/services/ingester/handlers/formula_handler.py:88-117 | a text answer has LaTeX with confidence 0.9 or 0.6; an OCR answer has `no_latex` exactly when its LaTeX is falsy, with confidence 0.95 or 0.0 |
| FormulaHandler.StubsSkipOmml | verdo-backend/app/services/ingester/handlers/formula_handler.py:155-159 | with the converters as written (always none), both OMML layers never answer |
| FormulaHandler.PdfSources | verdo-backend/app/services/ingester/handlers/formula_handler.py:123-143 | the PDF path never uses OMML or text: render error, `ocr_no_llm` with confidence 0.0 and no LaTeX, or OCR with `no_latex` exactly when LaTeX is falsy |
| ImageCache.ErrorText | verdo-backend/app/services/ingester/handlers/image_handler.py:98-103 | a failed read is described as `<ERROR: ` + message + `>` |
| ImageCache.ImageCache.constructor | verdo-backend/app/services/ingester/handlers/image_handler.py:26-39 | the cache starts from the file's map, or empty when the file is missing or unreadable |
| ImageCache.ImageCache.Get | verdo-backend/app/services/ingester/handlers/image_handler.py:51-52 | a description is found exactly for a stored hash, and it is the stored one |
| ImageCache.ImageCache.Has | verdo-backend/app/temp_image_handler.py:54-56 | `has` is true exactly when `get` finds something |
| ImageCache.ImageCache.Set | verdo-backend/app/services/ingester/handlers/image_handler.py:41-56 | the last write under a hash wins, other hashes keep their descriptions, and a writable file then holds the whole map |
| ImageCache.ImageCache.TotalCached | verdo-backend/app/services/ingester/handlers/image_handler.py:58-62 | the count is the number of stored hashes |
| ImageCache.ReloadAfterSet | verdo-backend/app/temp_image_handler.py:16-52 | a description written to the file is found by a cache loaded from it afterwards |
| ImageHandler.CategoryOf | verdo-backend/app/services/ingester/handlers/image_handler.py:171-196 | a string `type` is the category; `Photo` when the field is missing or the reply is not a JSON object; a non-string `type` is returned as such; nothing when the call raised |
| ImageHandler.RouteIgnoresCase | verdo-backend/app/services/ingester/handlers/image_handler.py:200 | routing does not depend on the category's case |
| ImageHandler.TableComesFirst | verdo-backend/app/services/ingester/handlers/image_handler.py:202-207 | a table category goes to the table handler, or to the text prompt without one, whatever else it mentions |
| ImageHandler.FlowchartUnreachable | verdo-backend/app/services/ingester/handlers/image_handler.py:216-223 | no category reaches the flowchart prompt, because "chart" matches first |
| ImageHandler.DefaultIsPhoto | verdo-backend/app/services/ingester/handlers/image_handler.py:192-229 | the default category is described with the photo prompt |
| ImageHandler.CoordinatorCalls | verdo-backend/app/services/ingester/handlers/image_handler.py:171-232 | a coordinator makes one or two LLM calls |
| ImageHandler.ImageHandler.constructor | verdo-backend/app/services/ingester/handlers/image_handler.py:68-86 | a cache exists exactly when caching is enabled, loaded from its file; both counters start at 0 |
| ImageHandler.ImageHandler.Cached | verdo-backend/app/services/ingester/handlers/image_handler.py:132-135 | a request is short-circuited exactly when caching is on and a non-empty description is stored under the image's hash |
| ImageHandler.ImageHandler.ProcessImageAsync | verdo-backend/app/services/ingester/handlers/image_handler.py:130-169 | a hit is counted and completes at once; a miss, an empty cached text included, submits exactly one coordinator keyed by the image's hash |
| ImageHandler.ImageHandler.HandleAsync | verdo-backend/app/services/ingester/handlers/image_handler.py:92-123 | a read failure, or a missing LLM client, gives a future completed with the error text; otherwise as `_processImageAsync` |
| ImageHandler.ImageHandler.Categorize | verdo-backend/app/services/ingester/handlers/image_handler.py:171-196 | one counted LLM call giving the category |
| ImageHandler.ImageHandler.Dispatch | verdo-backend/app/services/ingester/handlers/image_handler.py:198-249 | table and formula JSON come from their handlers; any other category costs one counted description call |
| ImageHandler.ImageHandler.RunCoordinator | verdo-backend/app/services/ingester/handlers/image_handler.py:150-166 | the result is stored under the job's hash before the future resolves, and a raised call stores nothing; the file is rewritten only after a store to a writable file and is otherwise unchanged; the next request for the same image is a hit |
| ImageHandler.ImageHandler.Handle | verdo-backend/app/services/ingester/handlers/image_handler.py:105-128 | a blocking call returns the error text, the cached description, or the coordinator's result; a hit is counted once, a coordinator's LLM calls are counted, its result is stored under the image's hash (and written when the file is writable), and nothing else changes the cache |
| ImageHandler.ImageHandler.GetStats | verdo-backend/app/services/ingester/handlers/image_handler.py:251-259 | total requests are API calls plus cache hits; the cache size is reported exactly when caching is on |
| TempImageHandler.Described | verdo-backend/app/temp_image_handler.py:249-300 | a 200 reply gives its content; every failure becomes an `<ERROR: …>` text, never an exception |
| TempImageHandler.ImageHandler.constructor | verdo-backend/app/temp_image_handler.py:69-92 | a cache exists exactly when caching is enabled; both counters start at 0 |
| TempImageHandler.ImageHandler.Cached | verdo-backend/app/temp_image_handler.py:102-105 | a request is short-circuited exactly when caching is on and a non-empty description is stored under the image's hash |
| TempImageHandler.ImageHandler.HandleAsync | verdo-backend/app/temp_image_handler.py:94-150 | a hit adds one cache hit and no API call; a miss whose image decodes adds exactly one API call; every exception gives a future completed with the error text |
| TempImageHandler.ImageHandler.RunTask | verdo-backend/app/temp_image_handler.py:124-140 | the description, error texts included, is stored under the job's hash before the future resolves; the file is rewritten only when a hash is stored to a writable file and is otherwise unchanged |
| TempImageHandler.ImageHandler.Handle | verdo-backend/app/temp_image_handler.py:152-234 | a blocking call always returns a string: the error text, the cached description, or the description; a hit is counted once, a decoded miss one API call, a request's description is stored under the image's hash (and written when the file is writable), and nothing else changes the cache |
| TempImageHandler.ImageHandler.GetStats | verdo-backend/app/temp_image_handler.py:302-314 | total requests are API calls plus cache hits |
| TempImageHandler.ErrorIsCached | verdo-backend/app/temp_image_handler.py:124-295 | after an error status, the same image is a cache hit whose description is the error text |
| ExtractorPasses.SubmitAll | verdo-backend/app/services/ingester/extractor/content_extractor.py:149-187 | the first pass records every element with empty content and one future per asynchronous element whose submission did not raise |
| ExtractorPasses.HandleAll | verdo-backend/app/services/ingester/extractor/content_extractor.py:189-199 | the second pass fills every synchronous element's content and leaves asynchronous ones alone |
| ExtractorPasses.FirstNum | verdo-backend/app/services/ingester/extractor/content_extractor.py:204-207 | the join targets the first entry with the future's page or slide number |
| ExtractorPasses.JoinAll | verdo-backend/app/services/ingester/extractor/content_extractor.py:201-207 | the third pass writes each future's result at its recorded index, and raises when a future did |
| ExtractorPasses.RunPasses | verdo-backend/app/services/ingester/extractor/content_extractor.py:149-207 | the three passes, in order |
| ExtractorPasses.PassesResult | verdo-backend/app/services/ingester/extractor/content_extractor.py:149-220 | with distinct numbers, the passes succeed exactly when every submitted future resolves; each element then keeps its place and gets its own future's result, its handler's result, or no content when submission raised |
| ExtractorPasses.JoinedFacts | verdo-backend/app/services/ingester/extractor/content_extractor.py:201-207 | joining keeps the shape of the metadata; an element's content is the last future recorded for it, or what it had |
| ExtractorPasses.JoinedSucceeds | verdo-backend/app/services/ingester/extractor/content_extractor.py:201-207 | when every future targets an element, the join succeeds exactly when every future holds a result |
| ContentExtractor.GetHandler | verdo-backend/app/services/ingester/extractor/content_extractor.py:236-256 | text, plain text and title go to text; image and figure to image; table to table; equation and isolate_formula to formula; anything else to the default |
| ContentExtractor.FileKindOf | verdo-backend/app/services/ingester/extractor/content_extractor.py:50-55 | PPTX exactly for a `.pptx` suffix, PDF exactly for `.pdf`, unsupported otherwise |
| ContentExtractor.Extract | verdo-backend/app/services/ingester/extractor/content_extractor.py:49-55 | routes to the PPTX or PDF extraction, or fails with `Unsupported file type: <path>` |
| ContentExtractor.ExtractFromPdf | verdo-backend/app/services/ingester/extractor/content_extractor.py:146-223 | the PDF extraction is the three passes over the analysed pages, then the page records |
| ContentExtractor.PdfElementsInOrder | verdo-backend/app/services/ingester/extractor/content_extractor.py:163-220 | with distinct page numbers, it succeeds exactly when every image future resolves; pages and elements keep their order and count, and content comes from the future, from `handlePdf` (or `handle`), or stays empty when submission raised |
| ContentExtractor.FindShape | verdo-backend/app/services/ingester/extractor/content_extractor.py:228-233 | the first shape whose (top, left) equals the position, or none when no shape is there |
| ContentExtractor.MatchShapes | verdo-backend/app/services/ingester/extractor/content_extractor.py:72-90 | the element loop keeps, in order, the elements that have a shape, paired with it |
| ContentExtractor.MatchedFacts | verdo-backend/app/services/ingester/extractor/content_extractor.py:72-90 | every element with a shape is kept with its first shape, none is invented, and none is dropped when all are found |
| ContentExtractor.AnalyzedElementsAllFound | verdo-backend/app/services/ingester/extractor/content_extractor.py:74-79 | for a slide as the analyzer describes it, every element finds a shape |
| ContentExtractor.ExtractFromPptx | verdo-backend/app/services/ingester/extractor/content_extractor.py:60-141 | the PPTX extraction is the three passes over the matched elements, then the slide records |
| ContentExtractor.PptxElementsInOrder | verdo-backend/app/services/ingester/extractor/content_extractor.py:93-139 | with distinct slide numbers, slides keep their order and matched elements their count and order; only `image` elements take a future's result, the rest `handlePptx` (or `handle`); the pass succeeds exactly when every kept image future resolves |
| ContentExtractor.PptxSucceeds | verdo-backend/app/services/ingester/extractor/content_extractor.py:93-139 | the PPTX passes fail exactly when some matched image element's future does not resolve |
| ConceptBuilder.Put | verdo-backend/app/services/ingester/services/AgenticConceptBuilder.py:334 | a dict update keeps insertion order: an existing key stays where it was, a new key goes last |
| ConceptBuilder.SortedFacts | verdo-backend/app/services/ingester/services/AgenticConceptBuilder.py:71 | sorting by `global_sequence` (missing = 0) is a permutation, is ordered, and keeps ties in input order |
| ConceptBuilder.Index | verdo-backend/app/services/ingester/services/AgenticConceptBuilder.py:68 | the index has one key per element id, each mapped to an element with that id |
| ConceptBuilder.IndexKeepsLast | verdo-backend/app/services/ingester/services/AgenticConceptBuilder.py:68 | for a repeated id, the last element wins |
| ConceptBuilder.BatchesPartition | verdo-backend/app/services/ingester/services/AgenticConceptBuilder.py:76-89 | the batches concatenate to the input, there are ceil(n / size) of them, each non-empty and at most size, all but the last exactly size |
| ConceptBuilder.ChunksFitWorkers | verdo-backend/app/services/ingester/services/AgenticConceptBuilder.py:123-124 | the chunk size is positive and yields at most one chunk per worker |
| ConceptBuilder.Apply | verdo-backend/app/services/ingester/services/AgenticConceptBuilder.py:206-239 | a decision keeps the map well formed, never drops a concept, and extends the processed list by at most its own known element |
| ConceptBuilder.ApplyFacts | verdo-backend/app/services/ingester/services/AgenticConceptBuilder.py:206-239 | an unknown element, skip, an unknown decision or an add to an unknown concept changes nothing; create and add append the element to the processed list, touch only the target concept and end its elements with the content; create makes a one-element concept with default title and summary, replacing any with that id; add keeps the title and replaces the summary exactly when the stripped reply is non-empty |
| ConceptBuilder.ApplyAll | verdo-backend/app/services/ingester/services/AgenticConceptBuilder.py:206-239 | a batch's decisions keep the map well formed, never drop a concept, and only extend the processed list with known elements, at most one per decision |
| ConceptBuilder.RunBatches | verdo-backend/app/services/ingester/services/AgenticConceptBuilder.py:88-97 | running the batches keeps the map well formed, never drops a concept, and only extends the processed list with known elements |
| ConceptBuilder.ById | verdo-backend/app/services/ingester/services/AgenticConceptBuilder.py:191-193 | the id pass has one key per id, each mapped to a concept with that id |
| ConceptBuilder.ByTitleFacts | verdo-backend/app/services/ingester/services/AgenticConceptBuilder.py:169-182 | a title is present exactly when some concept has it; its entry concatenates the same-title element lists in input order, keeps the first one's id, and has the first strictly longest summary |
| ConceptBuilder.MergedFacts | verdo-backend/app/services/ingester/services/AgenticConceptBuilder.py:167-195 | every merged entry is keyed by its id and equals the title pass's entry for its title; titles are pairwise distinct; non-empty inputs give a well-formed map |
| ConceptBuilder.MergeDropsSameIdConcepts | verdo-backend/app/services/ingester/services/AgenticConceptBuilder.py:191-193 | two titles sharing an id collapse to the later one, losing the earlier one's elements |
| ConceptBuilder.MinOf | verdo-backend/app/services/ingester/services/AgenticConceptBuilder.py:426 | the minimum is a member and at most every count |
| ConceptBuilder.MaxOf | verdo-backend/app/services/ingester/services/AgenticConceptBuilder.py:427 | the maximum is a member and at least every count |
| ConceptBuilder.CountBounds | verdo-backend/app/services/ingester/services/AgenticConceptBuilder.py:425-427 | the average lies between the minimum and the maximum |
| ConceptBuilder.ChunkConceptsNonEmpty | verdo-backend/app/services/ingester/services/AgenticConceptBuilder.py:130-163 | every concept a worker returns has at least one element |
| ConceptBuilder.ParallelFacts | verdo-backend/app/services/ingester/services/AgenticConceptBuilder.py:113-154 | with workers and more than 20 elements, the chunks fit the workers and partition the elements in order, and the merged map is well formed with distinct titles |
| ConceptBuilder.ChunksStaySorted | verdo-backend/app/services/ingester/services/AgenticConceptBuilder.py:123-162 | a worker's own re-sort leaves its chunk unchanged |
| ConceptBuilder.AgenticConceptBuilder.constructor | verdo-backend/app/services/ingester/services/AgenticConceptBuilder.py:45-57 | a builder starts with no concepts, no elements and nothing processed |
| ConceptBuilder.AgenticConceptBuilder.CreateConcept | verdo-backend/app/services/ingester/services/AgenticConceptBuilder.py:332-339 | stores a one-element concept under the id, replacing any earlier one |
| ConceptBuilder.AgenticConceptBuilder.AddToConcept | verdo-backend/app/services/ingester/services/AgenticConceptBuilder.py:351-358 | appends the content and replaces the summary only with a non-empty stripped reply |
| ConceptBuilder.AgenticConceptBuilder.ProcessDecision | verdo-backend/app/services/ingester/services/AgenticConceptBuilder.py:206-239 | one decision changes the builder exactly as the decision rules specify: unknown elements and skips leave it alone, create and add store the element |
| ConceptBuilder.AgenticConceptBuilder.ProcessBatch | verdo-backend/app/services/ingester/services/AgenticConceptBuilder.py:201-239 | the decision loop leaves the builder in the state the decisions specify, in order |
| ConceptBuilder.AgenticConceptBuilder.RunSerial | verdo-backend/app/services/ingester/services/AgenticConceptBuilder.py:88-97 | the batch loop applies each consecutive batch, in order |
| ConceptBuilder.AgenticConceptBuilder.ProcessElementsSerial | verdo-backend/app/services/ingester/services/AgenticConceptBuilder.py:66-110 | indexes the elements, then runs the batches of the sorted elements; a batch size of 0 raises and leaves the concepts unchanged |
| ConceptBuilder.AgenticConceptBuilder.ProcessChunkWorker | verdo-backend/app/services/ingester/services/AgenticConceptBuilder.py:159-163 | a worker is a fresh serial builder over its chunk, with batch size 10 |
| ConceptBuilder.AgenticConceptBuilder.RunWorkers | verdo-backend/app/services/ingester/services/AgenticConceptBuilder.py:128-140 | one fresh worker per chunk, their concepts collected in chunk order |
| ConceptBuilder.AgenticConceptBuilder.MergeConcepts | verdo-backend/app/services/ingester/services/AgenticConceptBuilder.py:167-195 | the two loops compute the title pass and then the id pass |
| ConceptBuilder.AgenticConceptBuilder.TitlePass | verdo-backend/app/services/ingester/services/AgenticConceptBuilder.py:169-182 | the title loop computes the title pass: a new title is stored, a known one gets the elements appended and a strictly longer summary |
| ConceptBuilder.AgenticConceptBuilder.IdPass | verdo-backend/app/services/ingester/services/AgenticConceptBuilder.py:191-193 | the id loop keys the title pass's concepts by id, a later one replacing an earlier one |
| ConceptBuilder.AgenticConceptBuilder.ProcessParallel | verdo-backend/app/services/ingester/services/AgenticConceptBuilder.py:113-154 | replaces the concepts with the merge of the workers' concepts, in chunk order, and leaves the processed list alone; no workers raises and changes nothing |
| ConceptBuilder.AgenticConceptBuilder.ProcessElements | verdo-backend/app/services/ingester/services/AgenticConceptBuilder.py:66-110 | the parallel path runs exactly when asked for with more than 20 elements; otherwise the serial path runs |
| ConceptBuilder.AgenticConceptBuilder.GetConceptsList | verdo-backend/app/services/ingester/services/AgenticConceptBuilder.py:400-401 | the list has one concept per key, and holds exactly the stored concepts |
| ConceptBuilder.AgenticConceptBuilder.GetConceptById | verdo-backend/app/services/ingester/services/AgenticConceptBuilder.py:404-407 | a concept is returned exactly for a stored id, and it is the stored one |
| ConceptBuilder.AgenticConceptBuilder.GetStats | verdo-backend/app/services/ingester/services/AgenticConceptBuilder.py:410-428 | all zeros without concepts; otherwise the concept and processed counts, the minimum and maximum are actual counts bounding all others, and min ≤ average ≤ max, with min ≥ 1 in a well-formed map |

## Left out

- I/O and libraries are inputs, not models: PyMuPDF, python-pptx, pdfplumber,
  the YOLO detector, `json`, base64, sha-256, HTTP, file existence and writes.
- Threads and interleavings are not modelled. Futures are values. Cache
  writes from concurrent coordinators and their races are not modelled.
  `as_completed` order in the parallel concept builder is replaced by chunk
  order, and a failing worker is not modelled.
- Floating point is `real`. That covers IoU, confidences and the PDF scale
  factor, which is an input; IEEE rounding is not modelled.
- Logging, `verbose` and `printLogging` output are not modelled. Nor is the
  image cache's `cache_size_kb` statistic, which depends on the file system.
- ASCII case mapping only: `upper()` and `lower()` in the model change A–Z and
  a–z and nothing else.
- TableHandler: `handlePptx` and `handleImage` are not modelled (only the PDF
  path and the GPT reply handling are); `_callGptVision` and `_parseGptJson`
  are stubs in the source.
- TableHandler.GptBytesOutcome: a reply whose `rows` is not a JSON list, or
  whose `title` or `footnotes` is not a string, is not modelled. The
  downstream list handling would raise or pass the value through, and the
  model has no value for either.
- ImageCache.ImageCache.constructor: a `descriptions.json` that holds valid
  JSON other than an object of strings is not modelled. The source would
  load it as the cache (a list, say), and later lookups would raise or
  return non-strings.
- FormulaHandler: `handleImage` is not modelled; `_extractOmmlFromSlide` and
  `_ommlToLatex` are converter inputs, and as written they always return
  nothing.
- ImageHandler: the prompt texts, `_generateDescription`'s request and the
  `json.dumps` of the table and formula handlers' results are inputs.
- TempImageHandler: the HTTP request and its `Context:` prompt text are
  inputs.
- ContentExtractor: a page or slide number is assumed to name an existing
  page or slide. The `hasattr` checks on the image handler are taken as true.
  A `type` that is not a string is not modelled.
- ExtractorPasses: with repeated page or slide numbers the join writes into
  the first entry with that number. The model computes this, but the
  order-and-content lemmas assume distinct numbers.
- ConceptBuilder: the following are not modelled, and the element's content is
  assumed present:
  - the prompt and outline text (`_getBatchDecisions`, `_getConceptOutline`);
  - the phase-2 fields of a concept;
  - `toDict`;
  - a JSON `null` title or summary;
  - a decisions reply that is valid JSON but not an object, or a decision
    that is not an object. In the source, `.get` on it raises
    `AttributeError`, and the model's decision type has no outcome for that;
  - a `decisions` value that is `null` or not a list. The source's `for`
    over it raises `TypeError` outside the reply's `try`, and the model has
    no outcome for that either.

  The LLM's decisions and summary replies, and the uuid hex, are inputs.
- ConceptBuilder.AgenticConceptBuilder.ProcessParallel: a zero or negative
  worker count raises in the source (division by zero or an invalid pool
  size) and is the `None` outcome here. The worker's result order follows
  chunk order instead of completion order.
- ConceptBuilder.ApplyAll: states only bounds and monotonicity of the
  processed list; its exact contents follow from `Apply` step by step.
