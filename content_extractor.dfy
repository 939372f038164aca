/** The content extractor: routes a file to the PDF or PPTX path, maps
    each element type to its handler, and runs the three extraction passes
    over the analyzer's output. The handlers' answers and the futures of
    the image tasks are inputs; a handler without the format's entry point
    is the AttributeError case, which falls back to `handle()`. */
module ContentExtractor {
  import opened Wrappers
  import opened Strings
  import opened NmsProcessor
  import opened PdfAnalyzer
  import opened PptxShapes
  import opened PptxAnalyzer
  import opened ExtractorPasses

  /** The five handlers the extractor holds. */
  datatype Handler = Text | Image | Table | Formula | Default

  const HandlerMap: map<string, Handler> := map[
    "text" := Text, "plain text" := Text, "title" := Text,
    "image" := Image, "figure" := Image,
    "table" := Table,
    "equation" := Formula, "isolate_formula" := Formula]

  /** `_getHandler`: the handler for an element type, the default one for
      any type the map does not name. */
  function GetHandler(elemType: string): (h: Handler)
    ensures h == Text <==> elemType in {"text", "plain text", "title"}
    ensures h == Image <==> elemType in {"image", "figure"}
    ensures h == Table <==> elemType == "table"
    ensures h == Formula <==> elemType in {"equation", "isolate_formula"}
    ensures h == Default <==> elemType !in HandlerMap
  {
    if elemType in HandlerMap then HandlerMap[elemType] else Default
  }

  datatype FileKind = Pptx | Pdf

  /** `extract`'s routing on the file name (`None`: ValueError). */
  function FileKindOf(filePath: string): (k: Option<FileKind>)
    ensures k == Some(Pptx) <==> EndsWith(filePath, ".pptx")
    ensures k == Some(Pdf) <==> EndsWith(filePath, ".pdf")
    ensures k.None? <==> !EndsWith(filePath, ".pptx") && !EndsWith(filePath, ".pdf")
  {
    if EndsWith(filePath, ".pptx") then
      assert filePath[|filePath| - 1] == 'x';
      Some(Pptx)
    else if EndsWith(filePath, ".pdf") then Some(Pdf)
    else None
  }

  // ----- PDF -----

  /** `{'type', 'bbox', 'confidence', 'content'}`. */
  datatype PdfElement<C> = PdfElement(kind: string, bbox: Box, confidence: real, content: Option<C>)

  datatype PageOut<C> = PageOut(pageNumber: int, elements: seq<PdfElement<C>>)

  /** The handlers' PDF entry points: `handlePdf` of a handler for a
      detection on a page (`None`: the handler has no `handlePdf`),
      `handle()` of a handler, and the future `handlePdfAsync` returns for
      an image (`None`: the submission raised). */
  datatype PdfHandlers<C> = PdfHandlers(
    handlePdf: (Handler, int, Detection) -> Option<C>,
    handle: Handler -> C,
    submit: (int, Detection) -> Option<Future<C>>)

  /** Image and figure detections go to the image handler's tasks. */
  predicate PdfIsAsync(d: Detection) {
    d.className in {"image", "figure"}
  }

  /** Pass two's content for a detection. */
  function PdfSync<C>(hs: PdfHandlers<C>, pageNumber: int, d: Detection): C {
    var h := GetHandler(d.className);
    match hs.handlePdf(h, pageNumber, d)
    case Some(c) => c
    case None => hs.handle(h)
  }

  function PdfHandle<C>(hs: PdfHandlers<C>): (int, Detection) -> C {
    (n: int, d: Detection) => PdfSync(hs, n, d)
  }

  function PdfInput(pages: seq<PageResult>): (input: seq<(int, seq<Detection>)>)
    ensures |input| == |pages|
    ensures forall k :: 0 <= k < |pages| ==> input[k] == (pages[k].pageNumber, pages[k].detections)
  {
    seq(|pages|, k requires 0 <= k < |pages| => (pages[k].pageNumber, pages[k].detections))
  }

  function PdfPageOf<C>(e: Entry<Detection, C>): (p: PageOut<C>)
    ensures p.pageNumber == e.num && |p.elements| == |e.slots|
    ensures forall i :: 0 <= i < |e.slots| ==>
              p.elements[i] == PdfElement(e.slots[i].elem.className, e.slots[i].elem.bbox, e.slots[i].elem.conf, e.slots[i].content)
  {
    PageOut(e.num, seq(|e.slots| , i requires 0 <= i < |e.slots| =>
      PdfElement(e.slots[i].elem.className, e.slots[i].elem.bbox, e.slots[i].elem.conf, e.slots[i].content)))
  }

  /** What `extractFromPdf` returns (`None`: waiting for an image future
      raised, or its recorded index was past the end of the entry found). */
  function PdfOutcome<C>(pages: seq<PageResult>, hs: PdfHandlers<C>): Option<seq<PageOut<C>>> {
    match Passes(PdfInput(pages), PdfIsAsync, hs.submit, PdfHandle(hs))
    case None => None
    case Some(meta) => Some(seq(|meta|, k requires 0 <= k < |meta| => PdfPageOf(meta[k])))
  }

  /** The final loop: one output record per entry. */
  method BuildPdf<C>(meta: seq<Entry<Detection, C>>) returns (results: seq<PageOut<C>>)
    ensures results == seq(|meta|, k requires 0 <= k < |meta| => PdfPageOf(meta[k]))
  {
    results := [];
    var k := 0;
    while k < |meta|
      invariant 0 <= k <= |meta|
      invariant |results| == k && forall j :: 0 <= j < k ==> results[j] == PdfPageOf(meta[j])
    {
      results := results + [PdfPageOf(meta[k])];
      k := k + 1;
    }
  }

  /** `extractFromPdf(filePath, analyzedElements)`. */
  method ExtractFromPdf<C>(pages: seq<PageResult>, hs: PdfHandlers<C>) returns (r: Option<seq<PageOut<C>>>)
    ensures r == PdfOutcome(pages, hs)
  {
    var meta := RunPasses(PdfInput(pages), PdfIsAsync, hs.submit, PdfHandle(hs));
    if meta.None? {
      return None;
    }
    var results := BuildPdf(meta.value);
    r := Some(results);
  }

  /** With distinct page numbers, as the analyzer produces them: the
      extraction fails only when waiting for an image future raises;
      otherwise each page keeps its number and has one element per
      detection, in detection order, carrying the detection's class, box
      and confidence. An image or figure gets its own future's value, or no
      content when its submission raised; any other element gets its
      handler's `handlePdf`, or `handle()` when the handler has none. */
  lemma PdfElementsInOrder<C>(pages: seq<PageResult>, hs: PdfHandlers<C>)
    requires forall a, b :: 0 <= a < b < |pages| ==> pages[a].pageNumber != pages[b].pageNumber
    ensures PdfOutcome(pages, hs).Some? <==>
              forall k, i :: 0 <= k < |pages| && 0 <= i < |pages[k].detections| ==>
                Resolves(pages[k].pageNumber, pages[k].detections[i], PdfIsAsync, hs.submit)
    ensures PdfOutcome(pages, hs).Some? ==>
              var out := PdfOutcome(pages, hs).value;
              |out| == |pages|
              && forall k :: 0 <= k < |pages| ==>
                   out[k].pageNumber == pages[k].pageNumber && |out[k].elements| == |pages[k].detections|
                   && forall i :: 0 <= i < |pages[k].detections| ==>
                        var d := pages[k].detections[i];
                        out[k].elements[i] == PdfElement(d.className, d.bbox, d.conf,
                          if PdfIsAsync(d) then
                            (if hs.submit(pages[k].pageNumber, d).Some? then hs.submit(pages[k].pageNumber, d).value.result else None)
                          else Some(PdfSync(hs, pages[k].pageNumber, d)))
  {
    var input := PdfInput(pages);
    PassesResult(input, PdfIsAsync, hs.submit, PdfHandle(hs));
  }

  // ----- PPTX -----

  /** `{'type', 'position', 'size', 'content'}`. */
  datatype PptxElement<C> = PptxElement(kind: string, position: (int, int), size: (int, int), content: Option<C>)

  datatype SlideOut<C> = SlideOut(slideNumber: int, elements: seq<PptxElement<C>>)

  /** The handlers' PPTX entry points: `handlePptx` of a handler for a
      shape, given the file path and slide number (`None`: the handler has
      no `handlePptx`), `handle()`, and the future `handlePptxAsync`
      returns for a shape (`None`: the submission raised). */
  datatype PptxHandlers<C> = PptxHandlers(
    handlePptx: (Handler, Shape, string, int) -> Option<C>,
    handle: Handler -> C,
    submit: Shape -> Option<Future<C>>)

  predicate At(shape: Shape, position: (int, int)) {
    shape.top == position.0 && shape.left == position.1
  }

  /** `_findShape`: the first shape at the position, if any. */
  function FindShape(shapes: seq<Shape>, position: (int, int)): (r: Option<Shape>)
    ensures r.None? <==> forall j :: 0 <= j < |shapes| ==> !At(shapes[j], position)
    ensures r.Some? ==> exists i :: 0 <= i < |shapes| && shapes[i] == r.value && At(shapes[i], position)
                                    && forall j :: 0 <= j < i ==> !At(shapes[j], position)
  {
    if shapes == [] then None
    else if At(shapes[0], position) then Some(shapes[0])
    else
      var r := FindShape(shapes[1..], position);
      assert forall j :: 1 <= j < |shapes| ==> shapes[j] == shapes[1..][j - 1];
      if r.Some? then
        var i :| 0 <= i < |shapes[1..]| && shapes[1..][i] == r.value && At(shapes[1..][i], position)
                 && forall j :: 0 <= j < i ==> !At(shapes[1..][j], position);
        assert shapes[i + 1] == r.value;
        r
      else r
  }

  /** The elements of a slide that have a shape at their position, paired
      with it, in order. */
  function Matched(elements: seq<Element>, shapes: seq<Shape>): seq<(Element, Shape)> {
    if elements == [] then []
    else
      var n := |elements| - 1;
      Matched(elements[..n], shapes)
        + match FindShape(shapes, elements[n].position)
          case None => []
          case Some(s) => [(elements[n], s)]
  }

  /** Pass one's search: elements without a shape are dropped. */
  method MatchShapes(elements: seq<Element>, shapes: seq<Shape>) returns (kept: seq<(Element, Shape)>)
    ensures kept == Matched(elements, shapes)
  {
    kept := [];
    var i := 0;
    while i < |elements|
      invariant 0 <= i <= |elements|
      invariant kept == Matched(elements[..i], shapes)
    {
      assert elements[..i + 1][..i] == elements[..i];
      var shape := FindShape(shapes, elements[i].position);
      if shape.Some? {
        kept := kept + [(elements[i], shape.value)];
      }
      i := i + 1;
    }
    assert elements[..i] == elements;
  }

  /** Only `image` elements go to the image handler's tasks. */
  predicate PptxIsAsync(e: (Element, Shape)) {
    e.0.classifiedType == "image"
  }

  function PptxSync<C>(hs: PptxHandlers<C>, filePath: string, slideNumber: int, e: (Element, Shape)): C {
    var h := GetHandler(e.0.classifiedType);
    match hs.handlePptx(h, e.1, filePath, slideNumber)
    case Some(c) => c
    case None => hs.handle(h)
  }

  function PptxHandle<C>(hs: PptxHandlers<C>, filePath: string): (int, (Element, Shape)) -> C {
    (n: int, e: (Element, Shape)) => PptxSync(hs, filePath, n, e)
  }

  function PptxSubmit<C>(hs: PptxHandlers<C>): (int, (Element, Shape)) -> Option<Future<C>> {
    (n: int, e: (Element, Shape)) => hs.submit(e.1)
  }

  /** The slides with their matched elements; `slideShapes(n)` is the
      shape list of slide `n`. */
  function PptxInput(slides: seq<SlideResult>, slideShapes: int -> seq<Shape>): (input: seq<(int, seq<(Element, Shape)>)>)
    ensures |input| == |slides|
    ensures forall k :: 0 <= k < |slides| ==>
              input[k] == (slides[k].slideNumber, Matched(slides[k].elements, slideShapes(slides[k].slideNumber)))
  {
    seq(|slides|, k requires 0 <= k < |slides| =>
      (slides[k].slideNumber, Matched(slides[k].elements, slideShapes(slides[k].slideNumber))))
  }

  function PptxElementOf<C>(slot: Slot<(Element, Shape), C>): PptxElement<C> {
    PptxElement(slot.elem.0.classifiedType, slot.elem.0.position, slot.elem.0.size, slot.content)
  }

  function SlideOf<C>(e: Entry<(Element, Shape), C>): (s: SlideOut<C>)
    ensures s.slideNumber == e.num && |s.elements| == |e.slots|
    ensures forall i :: 0 <= i < |e.slots| ==> s.elements[i] == PptxElementOf(e.slots[i])
  {
    SlideOut(e.num, seq(|e.slots|, i requires 0 <= i < |e.slots| => PptxElementOf(e.slots[i])))
  }

  /** What `extractFromPptx` returns (`None`: waiting for an image future
      raised). */
  function PptxOutcome<C>(filePath: string, slides: seq<SlideResult>, slideShapes: int -> seq<Shape>,
                          hs: PptxHandlers<C>): Option<seq<SlideOut<C>>>
  {
    match Passes(PptxInput(slides, slideShapes), PptxIsAsync, PptxSubmit(hs), PptxHandle(hs, filePath))
    case None => None
    case Some(meta) => Some(seq(|meta|, k requires 0 <= k < |meta| => SlideOf(meta[k])))
  }

  method BuildPptx<C>(meta: seq<Entry<(Element, Shape), C>>) returns (results: seq<SlideOut<C>>)
    ensures results == seq(|meta|, k requires 0 <= k < |meta| => SlideOf(meta[k]))
  {
    results := [];
    var k := 0;
    while k < |meta|
      invariant 0 <= k <= |meta|
      invariant |results| == k && forall j :: 0 <= j < k ==> results[j] == SlideOf(meta[j])
    {
      results := results + [SlideOf(meta[k])];
      k := k + 1;
    }
  }

  /** `extractFromPptx(filePath, analyzedElements)`. */
  method ExtractFromPptx<C>(filePath: string, slides: seq<SlideResult>, slideShapes: int -> seq<Shape>,
                            hs: PptxHandlers<C>) returns (r: Option<seq<SlideOut<C>>>)
    ensures r == PptxOutcome(filePath, slides, slideShapes, hs)
  {
    var input: seq<(int, seq<(Element, Shape)>)> := [];
    var k := 0;
    while k < |slides|
      invariant 0 <= k <= |slides|
      invariant |input| == k
      invariant forall j :: 0 <= j < k ==>
                  input[j] == (slides[j].slideNumber, Matched(slides[j].elements, slideShapes(slides[j].slideNumber)))
    {
      var kept := MatchShapes(slides[k].elements, slideShapes(slides[k].slideNumber));
      input := input + [(slides[k].slideNumber, kept)];
      k := k + 1;
    }
    assert input == PptxInput(slides, slideShapes);
    var meta := RunPasses(input, PptxIsAsync, PptxSubmit(hs), PptxHandle(hs, filePath));
    if meta.None? {
      return None;
    }
    var results := BuildPptx(meta.value);
    r := Some(results);
  }

  /** The kept elements of a slide are those with a shape at their
      position, in slide order, each paired with the first such shape. */
  lemma {:induction false} MatchedFacts(elements: seq<Element>, shapes: seq<Shape>)
    ensures |Matched(elements, shapes)| <= |elements|
    ensures forall p :: p in Matched(elements, shapes) ==>
              p.0 in elements && FindShape(shapes, p.0.position) == Some(p.1)
    ensures forall e :: e in elements && FindShape(shapes, e.position).Some? ==>
              (e, FindShape(shapes, e.position).value) in Matched(elements, shapes)
    ensures (forall e :: e in elements ==> FindShape(shapes, e.position).Some?) ==>
              |Matched(elements, shapes)| == |elements|
  {
    if elements != [] {
      var n := |elements| - 1;
      MatchedFacts(elements[..n], shapes);
      assert elements == elements[..n] + [elements[n]];
      assert forall e :: e in elements[..n] ==> e in elements;
    }
  }

  /** Fed the analyzer's own output for a deck, the shape search drops
      nothing: every element of a slide was built from a shape of that
      slide, so a shape at its position exists. */
  lemma AnalyzedElementsAllFound(slideNumber: int, shapes: seq<Shape>)
    ensures |Matched(PptxAnalyzer.SlideOf(slideNumber, shapes).elements, shapes)| == |shapes|
  {
    var es := PptxAnalyzer.SlideOf(slideNumber, shapes).elements;
    forall e | e in es
      ensures FindShape(shapes, e.position).Some?
    {
      ElementsDescribeShapes(slideNumber, shapes, e);
      var shape :| shape in shapes && e == ElementOf(slideNumber, shape);
      var j :| 0 <= j < |shapes| && shapes[j] == shape;
      assert At(shapes[j], e.position);
    }
    MatchedFacts(es, shapes);
    OneElementPerShape(slideNumber, shapes);
  }

  /** With distinct slide numbers: the extraction fails only when waiting
      for the future of a kept image raises; otherwise each slide keeps its
      number and the elements that have a shape, in order, with their type,
      position and size; an image gets its future's value (nothing when the
      submission raised), any other element its handler's `handlePptx` given
      the file path and slide number, or `handle()` when the handler has
      none. */
  lemma PptxElementsInOrder<C>(filePath: string, slides: seq<SlideResult>, slideShapes: int -> seq<Shape>,
                               hs: PptxHandlers<C>)
    requires forall a, b :: 0 <= a < b < |slides| ==> slides[a].slideNumber != slides[b].slideNumber
    ensures PptxOutcome(filePath, slides, slideShapes, hs).Some? <==> KeptImagesResolve(slides, slideShapes, hs)
    ensures PptxOutcome(filePath, slides, slideShapes, hs).Some? ==>
              var out := PptxOutcome(filePath, slides, slideShapes, hs).value;
              |out| == |slides|
              && forall k :: 0 <= k < |slides| ==>
                   var n := slides[k].slideNumber;
                   var kept := Matched(slides[k].elements, slideShapes(n));
                   out[k].slideNumber == n && |out[k].elements| == |kept|
                   && forall i :: 0 <= i < |kept| ==>
                        out[k].elements[i] == PptxElement(kept[i].0.classifiedType, kept[i].0.position, kept[i].0.size,
                          if PptxIsAsync(kept[i]) then
                            (if hs.submit(kept[i].1).Some? then hs.submit(kept[i].1).value.result else None)
                          else Some(PptxSync(hs, filePath, n, kept[i])))
  {
    var input := PptxInput(slides, slideShapes);
    PassesResult(input, PptxIsAsync, PptxSubmit(hs), PptxHandle(hs, filePath));
    PptxSucceeds(filePath, slides, slideShapes, hs);
  }

  /** Every kept element's future, if it has one, holds a value. */
  predicate KeptImagesResolve<C>(slides: seq<SlideResult>, slideShapes: int -> seq<Shape>, hs: PptxHandlers<C>) {
    forall k, i :: 0 <= k < |slides| && 0 <= i < |Matched(slides[k].elements, slideShapes(slides[k].slideNumber))| ==>
      Resolves(slides[k].slideNumber, Matched(slides[k].elements, slideShapes(slides[k].slideNumber))[i],
               PptxIsAsync, PptxSubmit(hs))
  }

  lemma PptxSucceeds<C>(filePath: string, slides: seq<SlideResult>, slideShapes: int -> seq<Shape>,
                        hs: PptxHandlers<C>)
    requires forall a, b :: 0 <= a < b < |slides| ==> slides[a].slideNumber != slides[b].slideNumber
    ensures PptxOutcome(filePath, slides, slideShapes, hs).Some? <==> KeptImagesResolve(slides, slideShapes, hs)
  {
    var input := PptxInput(slides, slideShapes);
    PassesResult(input, PptxIsAsync, PptxSubmit(hs), PptxHandle(hs, filePath));
    var all := forall k, i :: 0 <= k < |input| && 0 <= i < |input[k].1| ==>
                 Resolves(input[k].0, input[k].1[i], PptxIsAsync, PptxSubmit(hs));
    assert all <==> KeptImagesResolve(slides, slideShapes, hs);
  }

  /** What `extract` returns: the PPTX or PDF result, or the ValueError's
      message for any other file. */
  datatype Extracted<C> = FromPptx(slides: Option<seq<SlideOut<C>>>)
                        | FromPdf(pages: Option<seq<PageOut<C>>>)
                        | Unsupported(message: string)

  /** `extract(filePath, analyzedElements)`: `pages` and `slides` are the
      analyzer's output for the two formats. */
  method Extract<C>(filePath: string, pages: seq<PageResult>, pdfHandlers: PdfHandlers<C>,
                    slides: seq<SlideResult>, slideShapes: int -> seq<Shape>, pptxHandlers: PptxHandlers<C>)
    returns (r: Extracted<C>)
    ensures FileKindOf(filePath) == Some(Pptx) ==> r == FromPptx(PptxOutcome(filePath, slides, slideShapes, pptxHandlers))
    ensures FileKindOf(filePath) == Some(Pdf) ==> r == FromPdf(PdfOutcome(pages, pdfHandlers))
    ensures FileKindOf(filePath).None? ==> r == Unsupported("Unsupported file type: " + filePath)
  {
    if EndsWith(filePath, ".pptx") {
      var out := ExtractFromPptx(filePath, slides, slideShapes, pptxHandlers);
      r := FromPptx(out);
    } else if EndsWith(filePath, ".pdf") {
      var out := ExtractFromPdf(pages, pdfHandlers);
      r := FromPdf(out);
    } else {
      r := Unsupported("Unsupported file type: " + filePath);
    }
  }
}
